/**
 * The card binding engine: a sheet record is bound into a style set's card
 * template (`{{field}}` tokens), or, for styles without a template, laid out
 * by the legacy heuristic that guesses each column's role from its name.
 * A second resolver, used for the style-list preview, differs from the
 * template path in which values it accepts and when it converts images.
 *
 * A `None` result stands for the `TypeError` the source raises when it
 * calls `trim` or `split` on a non-string value.
 */
module Binding {
  import opened Wrappers
  import Text
  import opened Values
  import opened Styles
  import AssetUrl

  // ---------------------------------------------------------------------------
  // Shared pieces

  /** The token `{{name}}` a field fills. */
  function Token(name: string): (t: string)
    ensures |t| == |name| + 4
  {
    "{{" + name + "}}"
  }

  /** `item[k]` is defined and truthy. */
  predicate TruthyAt(item: Record, k: string) {
    Get(item, k).Some? && Truthy(Get(item, k).value)
  }

  /** `item[k] !== undefined && item[k] !== ''`. */
  predicate AcceptedAt(item: Record, k: string) {
    Get(item, k).Some? && Get(item, k).value != Str([])
  }

  /** Substitutes `v` for every `{{name}}`, in one left-to-right pass. */
  function Substitute(t: string, name: string, v: string): string {
    Text.ReplaceAll(t, Token(name), v)
  }

  const ImgCors: string := "<img crossorigin=\"anonymous\" "

  /** `<img` followed by white space starts at index `i`. */
  predicate ImgAt(s: string, i: int) {
    0 <= i && i + 4 < |s| && s[i] == '<' && s[i + 1] == 'i' && s[i + 2] == 'm' && s[i + 3] == 'g'
    && Text.IsWhite(s[i + 4])
  }

  /**
   * `s.replace(/<img\s+/g, '<img crossorigin="anonymous" ')`: each `<img`
   * with its run of white space becomes `<img`, the attribute and one space.
   */
  function InjectCrossOrigin(s: string): (r: string)
    ensures s != [] ==> r != [] && r[0] == s[0]
    ensures forall k :: 0 <= k <= |r| && LtFree(r, k) ==> k <= |s| && r[..k] == s[..k]
    decreases |s|
  {
    if |s| < 5 then s
    else if ImgAt(s, 0) then ImgCors + InjectCrossOrigin(SkipWhite(s[4..]))
    else
      var rest := InjectCrossOrigin(s[1..]);
      CopiedPrefix(s[0], s[1..], rest);
      assert s == [s[0]] + s[1..];
      [s[0]] + rest
  }

  /** A character put in front of both keeps a copied `<`-free prefix copied. */
  lemma CopiedPrefix(c: char, t: string, u: string)
    requires forall k :: 0 <= k <= |u| && LtFree(u, k) ==> k <= |t| && u[..k] == t[..k]
    ensures forall k :: 0 <= k <= |[c] + u| && LtFree([c] + u, k) ==> k <= |[c] + t| && ([c] + u)[..k] == ([c] + t)[..k]
  {
    forall k | 0 <= k <= |[c] + u| && LtFree([c] + u, k) ensures k <= |[c] + t| && ([c] + u)[..k] == ([c] + t)[..k] {
      if k > 0 {
        forall j | 0 <= j < k - 1 ensures u[j] != '<' {
          assert u[j] == ([c] + u)[j + 1];
        }
        assert ([c] + u)[..k] == [c] + u[..k - 1];
        assert ([c] + t)[..k] == [c] + t[..k - 1];
      }
    }
  }

  /** No `<` among the first `k` characters of `t`. */
  predicate LtFree(t: string, k: int)
    requires 0 <= k <= |t|
  {
    forall j :: 0 <= j < k ==> t[j] != '<'
  }

  /** `<img` at `i` already carries the attribute: `<img crossorigin="anonymous" ` starts there. */
  predicate HasCors(s: string, i: int) {
    0 <= i && i + |ImgCors| <= |s| && s[i..i + |ImgCors|] == ImgCors
  }

  /** Tags and attributes past a prefix are those of the rest, shifted. */
  lemma TagShiftBy(p: string, q: string, i: int)
    requires |p| <= i
    ensures ImgAt(p + q, i) <==> ImgAt(q, i - |p|)
    ensures HasCors(p + q, i) <==> HasCors(q, i - |p|)
  {
    if i + |ImgCors| <= |p + q| {
      assert (p + q)[i..i + |ImgCors|] == q[i - |p|..i - |p| + |ImgCors|];
    }
  }

  /** The result starts with `<img` and white space exactly when the markup does. */
  lemma InjectStartsTag(s: string)
    ensures ImgAt(InjectCrossOrigin(s), 0) <==> ImgAt(s, 0)
  {
    var r := InjectCrossOrigin(s);
    if |s| >= 5 && !ImgAt(s, 0) {
      var rest := InjectCrossOrigin(s[1..]);
      assert r == [s[0]] + rest;
      if |rest| >= 4 && LtFree(rest, 4) {
        assert rest[..4] == s[1..][..4];
        forall k | 0 <= k < 5 ensures r[k] == s[k] {
          if k > 0 {
            assert r[k] == rest[..4][k - 1] && s[k] == s[1..][..4][k - 1];
          }
        }
      } else if |rest| >= 4 {
        var j :| 0 <= j < 4 && rest[j] == '<';
        assert r[j + 1] == '<';
      }
    }
  }

  /**
   * Every `<img` followed by white space in the result carries the
   * attribute: the replacement leaves no image tag without
   * `crossorigin="anonymous"`.
   */
  lemma {:induction false} InjectTagsCarryCors(s: string)
    ensures forall i :: ImgAt(InjectCrossOrigin(s), i) ==> HasCors(InjectCrossOrigin(s), i)
    decreases |s|
  {
    var r := InjectCrossOrigin(s);
    if |s| >= 5 && ImgAt(s, 0) {
      var t := SkipWhite(s[4..]);
      InjectTagsCarryCors(t);
      assert r == ImgCors + InjectCrossOrigin(t);
      forall i ensures ImgAt(r, i) ==> HasCors(r, i) {
        if i == 0 {
          assert r[..|ImgCors|] == ImgCors;
        } else if 0 < i < |ImgCors| {
          assert r[i] == ImgCors[i];
        } else if i >= |ImgCors| {
          TagShiftBy(ImgCors, InjectCrossOrigin(t), i);
        }
      }
    } else if |s| >= 5 {
      InjectTagsCarryCors(s[1..]);
      InjectStartsTag(s);
      assert r == [s[0]] + InjectCrossOrigin(s[1..]);
      forall i ensures ImgAt(r, i) ==> HasCors(r, i) {
        if i >= 1 {
          TagShiftBy([s[0]], InjectCrossOrigin(s[1..]), i);
        }
      }
    }
  }

  /** The rest of `s` after its leading run of white space. */
  function SkipWhite(s: string): (r: string)
    ensures |r| <= |s|
  {
    if s != [] && Text.IsWhite(s[0]) then SkipWhite(s[1..]) else s
  }

  /** Matches in `s[1..]` are the matches in `s` shifted by one. */
  lemma ImgShift(s: string, i: int)
    requires s != [] && 0 <= i
    ensures ImgAt(s[1..], i) <==> ImgAt(s, i + 1)
  {
  }

  /** Markup with no `<img` followed by white space is left as it is. */
  lemma {:induction false} InjectWithoutImg(s: string)
    requires forall i :: !ImgAt(s, i)
    ensures InjectCrossOrigin(s) == s
    decreases |s|
  {
    if |s| >= 5 {
      assert !ImgAt(s, 0);
      forall i ensures !ImgAt(s[1..], i) {
        if i >= 0 { ImgShift(s, i); }
      }
      InjectWithoutImg(s[1..]);
      assert InjectCrossOrigin(s) == [s[0]] + InjectCrossOrigin(s[1..]);
    }
  }

  lemma InjectStepOther(s: string)
    requires |s| >= 5 && !ImgAt(s, 0)
    ensures InjectCrossOrigin(s) == [s[0]] + InjectCrossOrigin(s[1..])
  {
  }

  lemma InjectStepImg(s: string)
    requires ImgAt(s, 0)
    ensures InjectCrossOrigin(s) == ImgCors + InjectCrossOrigin(SkipWhite(s[4..]))
  {
  }

  /**
   * The leftmost `<img` and its whole run of white space `w` become
   * `<img crossorigin="anonymous" `; the text before it is copied and the
   * scan resumes after the run.
   */
  lemma InjectLeftmost(a: string, w: string, b: string)
    requires w != [] && forall k :: 0 <= k < |w| ==> Text.IsWhite(w[k])
    requires b == [] || !Text.IsWhite(b[0])
    requires forall i :: 0 <= i < |a| ==> !ImgAt(a + ("<img" + w + b), i)
    ensures InjectCrossOrigin(a + ("<img" + w + b)) == a + (ImgCors + InjectCrossOrigin(b))
  {
    InjectAtImg(w, b);
    InjectPrefix(a, "<img" + w + b, ImgCors + InjectCrossOrigin(b));
  }

  /** Text in front of the markup without a tag starting in it is copied as it is. */
  lemma {:induction false} InjectPrefix(a: string, rest: string, tail: string)
    requires InjectCrossOrigin(rest) == tail
    requires forall i :: 0 <= i < |a| ==> !ImgAt(a + rest, i)
    ensures InjectCrossOrigin(a + rest) == a + tail
    decreases |a|
  {
    if a != [] {
      NoImgAfterFirst(a, rest);
      calc {
        InjectCrossOrigin(a + rest);
        InjectCrossOrigin([a[0]] + (a[1..] + rest));
        { InjectPrefix(a[1..], rest, tail); InjectCons(a[0], a[1..] + rest, a[1..] + tail); }
        [a[0]] + (a[1..] + tail);
        { assert a == [a[0]] + a[1..]; }
        a + tail;
      }
    } else {
      assert a + rest == rest && a + tail == tail;
    }
  }

  /** Dropping the first character of a tag-free prefix leaves a tag-free prefix. */
  lemma NoImgAfterFirst(a: string, rest: string)
    requires a != []
    requires forall i :: 0 <= i < |a| ==> !ImgAt(a + rest, i)
    ensures a + rest == [a[0]] + (a[1..] + rest)
    ensures !ImgAt([a[0]] + (a[1..] + rest), 0)
    ensures forall i :: 0 <= i < |a| - 1 ==> !ImgAt(a[1..] + rest, i)
  {
    var s := a + rest;
    assert s == [a[0]] + (a[1..] + rest);
    assert s[1..] == a[1..] + rest;
    forall i | 0 <= i < |a| - 1 ensures !ImgAt(a[1..] + rest, i) {
      ImgShift(s, i);
    }
  }

  /** A character that does not start a tag is copied in front of the rest's result. */
  lemma InjectCons(c: char, t: string, tail: string)
    requires InjectCrossOrigin(t) == tail
    requires !ImgAt([c] + t, 0)
    ensures InjectCrossOrigin([c] + t) == [c] + tail
  {
    var s := [c] + t;
    assert s[1..] == t;
    if |s| >= 5 {
      InjectStepOther(s);
    }
  }

  /** `<img`, a run of white space and the rest: the tag gains the attribute. */
  lemma InjectAtImg(w: string, b: string)
    requires w != [] && forall k :: 0 <= k < |w| ==> Text.IsWhite(w[k])
    requires b == [] || !Text.IsWhite(b[0])
    ensures InjectCrossOrigin("<img" + w + b) == ImgCors + InjectCrossOrigin(b)
  {
    var s := "<img" + (w + b);
    assert s[4..] == w + b;
    assert s[4] == w[0];
    assert ImgAt(s, 0);
    InjectStepImg(s);
    TrimStartOfWhite(w, b);
    assert "<img" + w + b == s;
  }

  lemma {:induction false} TrimStartOfWhite(w: string, b: string)
    requires forall k :: 0 <= k < |w| ==> Text.IsWhite(w[k])
    requires b == [] || !Text.IsWhite(b[0])
    ensures SkipWhite(w + b) == b
  {
    if w != [] {
      assert (w + b)[1..] == w[1..] + b;
      TrimStartOfWhite(w[1..], b);
    }
  }

  // ---------------------------------------------------------------------------
  // renderCardFromTemplate

  /** The value of the first candidate column whose value is truthy. */
  function FirstTruthy(item: Record, keys: seq<string>): (r: Option<Value>)
    ensures r.None? <==> forall j :: 0 <= j < |keys| ==> !TruthyAt(item, keys[j])
    ensures r.Some? ==> Truthy(r.value)
  {
    if keys == [] then None
    else if TruthyAt(item, keys[0]) then Get(item, keys[0])
    else FirstTruthy(item, keys[1..])
  }

  /** Candidates are visited in order: the first truthy one decides. */
  lemma {:induction false} FirstTruthyIsFirst(item: Record, keys: seq<string>, j: nat)
    requires j < |keys| && TruthyAt(item, keys[j])
    requires forall i :: 0 <= i < j ==> !TruthyAt(item, keys[i])
    ensures FirstTruthy(item, keys) == Get(item, keys[j])
  {
    if j > 0 {
      assert !TruthyAt(item, keys[0]);
      FirstTruthyIsFirst(item, keys[1..], j - 1);
    }
  }

  /**
   * A template field's value: the first truthy candidate, else the field's
   * default, else `''`.
   */
  function ResolveValue(item: Record, fields: FieldDefaults, f: Field): Value
  {
    match FirstTruthy(item, f.candidates)
    case Some(v) => v
    case None => Str(DefaultOf(fields, f.name))
  }

  /**
   * The text substituted for a field: the `image` field's value goes
   * through the asset-URL normaliser whenever it is truthy, whether it came
   * from the record or from the default; a truthy non-string image value
   * makes `trim` throw. The normaliser is `convert`, which the card
   * renderer instantiates with `AssetUrl.ConvertDriveUrl`.
   */
  function BoundText(name: string, v: Value, convert: string -> string): Option<string>
  {
    if name == "image" && Truthy(v) then
      if v.Str? then Some(convert(v.s)) else None
    else Some(ToText(v))
  }

  /** The text each field puts in for its token, or `None` where its conversion throws. */
  function Bind(item: Record, fields: FieldDefaults, convert: string -> string): Field -> Option<string> {
    (f: Field) => BoundText(f.name, ResolveValue(item, fields, f), convert)
  }

  /** The template after the first `n` fields of the mapping are substituted, each with the text `bind` gives it. */
  function SubstitutePrefix(html: string, mapping: DataMapping, bind: Field -> Option<string>, n: nat): Option<string>
    requires n <= |mapping|
  {
    if n == 0 then Some(html)
    else
      match SubstitutePrefix(html, mapping, bind, n - 1)
      case None => None
      case Some(t) =>
        match bind(mapping[n - 1])
        case None => None
        case Some(v) => Some(Substitute(t, mapping[n - 1].name, v))
  }

  /** Once a field's conversion throws, the whole substitution has thrown. */
  lemma {:induction false} SubstituteFailureStays(html: string, mapping: DataMapping, bind: Field -> Option<string>, n: nat, m: nat)
    requires n <= m <= |mapping| && SubstitutePrefix(html, mapping, bind, n).None?
    ensures SubstitutePrefix(html, mapping, bind, m).None?
    decreases m - n
  {
    if n < m {
      SubstituteFailureStays(html, mapping, bind, n + 1, m);
    }
  }

  /** The inner loop of `renderCardFromTemplate`: `''` when no candidate column holds a truthy value. */
  method FirstTruthyCandidate(item: Record, keys: seq<string>) returns (value: Value)
    ensures value == FirstTruthy(item, keys).GetOr(Str([]))
  {
    value := Str([]);
    var k := 0;
    while k < |keys|
      invariant 0 <= k <= |keys|
      invariant forall i :: 0 <= i < k ==> !TruthyAt(item, keys[i])
    {
      var v := Get(item, keys[k]);
      if v.Some? && Truthy(v.value) {
        FirstTruthyIsFirst(item, keys, k);
        return v.value;
      }
      k := k + 1;
    }
  }

  /** One field's value in `renderCardFromTemplate`: the first truthy candidate, else the default. */
  method ResolveField(item: Record, fields: FieldDefaults, f: Field) returns (value: Value)
    ensures value == ResolveValue(item, fields, f)
  {
    value := FirstTruthyCandidate(item, f.candidates);
    if !Truthy(value) {
      value := Str(DefaultOf(fields, f.name));
    }
  }

  /** The text put in for a field's token; `None` where the image conversion throws. */
  method BindField(name: string, value: Value, convert: string -> string) returns (text: Option<string>)
    ensures text == BoundText(name, value, convert)
  {
    if name == "image" && Truthy(value) {
      if !value.Str? {
        return None;
      }
      text := Some(convert(value.s));
    } else {
      text := Some(ToText(value));
    }
  }

  /** The text a field's token gets: its value resolved, then converted. */
  method FieldText(item: Record, fields: FieldDefaults, f: Field, convert: string -> string) returns (text: Option<string>)
    ensures text == Bind(item, fields, convert)(f)
  {
    var value := ResolveField(item, fields, f);
    text := BindField(f.name, value, convert);
  }

  /** What `renderCardFromTemplate` returns: every field substituted in mapping order, then images tagged. */
  function TemplateCard(html: string, mapping: DataMapping, fields: FieldDefaults, item: Record): (r: Option<string>)
    ensures r.None? <==> (exists k :: 0 <= k < |mapping| && mapping[k].name == "image"
                                  && Truthy(ResolveValue(item, fields, mapping[k])) && !ResolveValue(item, fields, mapping[k]).Str?)
    ensures r.Some? ==> forall i :: ImgAt(r.value, i) ==> HasCors(r.value, i)
  {
    var bind := Bind(item, fields, AssetUrl.ConvertDriveUrl);
    SubstituteSucceeds(html, mapping, bind, |mapping|);
    match SubstitutePrefix(html, mapping, bind, |mapping|)
    case None => None
    case Some(t) =>
      InjectTagsCarryCors(t);
      Some(InjectCrossOrigin(t))
  }

  /** The loop of `renderCardFromTemplate` over the mapping, with the inner loop over candidate columns. */
  method SubstituteFields(html: string, mapping: DataMapping, fields: FieldDefaults, item: Record, convert: string -> string)
    returns (r: Option<string>)
    ensures r == SubstitutePrefix(html, mapping, Bind(item, fields, convert), |mapping|)
  {
    var template := html;
    var n := 0;
    while n < |mapping|
      invariant 0 <= n <= |mapping|
      invariant SubstitutePrefix(html, mapping, Bind(item, fields, convert), n) == Some(template)
    {
      var next := SubstituteField(html, mapping, fields, item, convert, n, template);
      if next.None? {
        SubstituteFailureStays(html, mapping, Bind(item, fields, convert), n + 1, |mapping|);
        return None;
      }
      template := next.value;
      n := n + 1;
    }
    return Some(template);
  }

  /** One pass of that loop: resolve field `n`, convert its value, substitute it. */
  method SubstituteField(html: string, mapping: DataMapping, fields: FieldDefaults, item: Record, convert: string -> string,
                         n: nat, template: string)
    returns (next: Option<string>)
    requires n < |mapping| && SubstitutePrefix(html, mapping, Bind(item, fields, convert), n) == Some(template)
    ensures next == SubstitutePrefix(html, mapping, Bind(item, fields, convert), n + 1)
  {
    var f := mapping[n];
    var text := FieldText(item, fields, f, convert);
    if text.None? {
      return None;
    }
    return Some(Substitute(template, f.name, text.value));
  }

  /** `renderCardFromTemplate`: substitute every mapped field, then tag the images. */
  method RenderCardFromTemplate(html: string, mapping: DataMapping, fields: FieldDefaults, item: Record)
    returns (r: Option<string>)
    ensures r == TemplateCard(html, mapping, fields, item)
  {
    var template := SubstituteFields(html, mapping, fields, item, AssetUrl.ConvertDriveUrl);
    if template.None? {
      return None;
    }
    return Some(InjectCrossOrigin(template.value));
  }

  /**
   * Substituting a field whose token the template does not contain leaves
   * the template as it is: a token is only ever filled by its own field.
   */
  lemma SubstituteAbsentToken(t: string, name: string, v: string)
    requires forall i :: !Text.OccursAt(t, Token(name), i)
    ensures Substitute(t, name, v) == t
  {
    Text.ReplaceAllAbsent(t, Token(name), v);
  }

  /**
   * A template in which no mapped token occurs comes through the
   * substitution loop unchanged, unless an image value makes the conversion
   * throw.
   */
  lemma {:induction false} TemplateWithoutTokens(html: string, mapping: DataMapping, bind: Field -> Option<string>, n: nat)
    requires n <= |mapping|
    requires forall k, i :: 0 <= k < n ==> !Text.OccursAt(html, Token(mapping[k].name), i)
    ensures SubstitutePrefix(html, mapping, bind, n).Some? ==> SubstitutePrefix(html, mapping, bind, n) == Some(html)
  {
    if n > 0 {
      TemplateWithoutTokens(html, mapping, bind, n - 1);
      var f := mapping[n - 1];
      if SubstitutePrefix(html, mapping, bind, n - 1).Some? && bind(f).Some? {
        assert forall i :: !Text.OccursAt(html, Token(f.name), i);
        SubstituteAbsentToken(html, f.name, bind(f).value);
      }
    }
  }

  /** The substitution throws exactly when some field's conversion does; the template plays no part. */
  lemma {:induction false} SubstituteSucceeds(html: string, mapping: DataMapping, bind: Field -> Option<string>, n: nat)
    requires n <= |mapping|
    ensures SubstitutePrefix(html, mapping, bind, n).Some? <==> forall k :: 0 <= k < n ==> bind(mapping[k]).Some?
  {
    if n > 0 {
      SubstituteSucceeds(html, mapping, bind, n - 1);
    }
  }

  /** A field name without braces, so that its token cannot overlap another. */
  predicate PlainName(name: string) {
    forall k :: 0 <= k < |name| ==> name[k] != '{' && name[k] != '}'
  }

  /** In the token of a plain name, `{` is exactly the first two characters and `}` the last two. */
  lemma TokenBraces(name: string)
    requires PlainName(name)
    ensures var t := Token(name); forall k :: 0 <= k < |t| ==>
      (t[k] == '{' <==> k < 2) && (t[k] == '}' <==> k >= |name| + 2)
  {
    var t := Token(name);
    forall k | 0 <= k < |t| ensures (t[k] == '{' <==> k < 2) && (t[k] == '}' <==> k >= |name| + 2) {
      if 2 <= k < |name| + 2 {
        assert t[k] == name[k - 2];
      }
    }
  }

  /** A token of another plain name never starts inside `{{g}}`. */
  lemma NoTokenInsideOther(f: string, g: string, b: string)
    requires PlainName(f) && PlainName(g) && f != g
    ensures forall i :: 0 <= i < |Token(g)| ==> !Text.OccursAt(Token(g) + b, Token(f), i)
  {
    var t, u := Token(f), Token(g);
    var s := u + b;
    TokenBraces(f);
    TokenBraces(g);
    forall i | 0 <= i < |u| ensures !Text.OccursAt(s, t, i) {
      var k;
      if i >= 2 {
        k := 0;
      } else if i == 1 {
        k := 1;
      } else if |f| < |g| {
        k := |f| + 2;
      } else if |f| > |g| {
        k := |g| + 2;
      } else {
        var j :| 0 <= j < |f| && f[j] != g[j];
        assert t[j + 2] == f[j] && u[j + 2] == g[j];
        k := j + 2;
      }
      assert s[i + k] == u[i + k];
      Text.MismatchAt(s, t, i, k);
    }
  }

  /** No token of a plain name straddles the start of a following `{{`. */
  lemma NoTokenAcrossBraces(a: string, f: string, u: string)
    requires PlainName(f) && |u| >= 2 && u[0] == '{' && u[1] == '{'
    ensures forall i :: 0 <= i < |a| < i + |Token(f)| ==> !Text.OccursAt(a + u, Token(f), i)
  {
    var t := Token(f);
    var s := a + u;
    TokenBraces(f);
    forall i | 0 <= i < |a| < i + |t| ensures !Text.OccursAt(s, t, i) {
      var k := if |a| - i == 1 then 2 else |a| - i;
      assert s[i + k] == u[i + k - |a|];
      Text.MismatchAt(s, t, i, k);
    }
  }

  /** Substituting field `f` leaves the token of another plain field `g` in place and substitutes either side of it. */
  lemma SubstituteKeepsOtherToken(a: string, g: string, b: string, f: string, v: string)
    requires PlainName(f) && PlainName(g) && f != g
    ensures Substitute(a + Token(g) + b, f, v) == Substitute(a, f, v) + Token(g) + Substitute(b, f, v)
  {
    var u := Token(g) + b;
    assert a + Token(g) + b == a + u;
    NoTokenAcrossBraces(a, f, u);
    Text.ReplaceAllSplit(a, u, Token(f), v);
    NoTokenInsideOther(f, g, b);
    Text.ReplaceAllCopy(Token(g), b, Token(f), v);
  }

  /**
   * The token of a field the mapping does not name comes through the
   * substitution loop untouched, with the text on either side substituted
   * as if on its own; it is left in the card as written.
   */
  lemma {:induction false} UnmappedTokenKept(a: string, g: string, b: string, mapping: DataMapping, bind: Field -> Option<string>, n: nat)
    requires n <= |mapping| && PlainName(g)
    requires forall k :: 0 <= k < n ==> PlainName(mapping[k].name) && mapping[k].name != g
    ensures SubstitutePrefix(a + Token(g) + b, mapping, bind, n).Some? <==> SubstitutePrefix(a, mapping, bind, n).Some?
    ensures SubstitutePrefix(a, mapping, bind, n).Some? <==> SubstitutePrefix(b, mapping, bind, n).Some?
    ensures SubstitutePrefix(a + Token(g) + b, mapping, bind, n).Some? ==>
      SubstitutePrefix(a + Token(g) + b, mapping, bind, n).value
        == SubstitutePrefix(a, mapping, bind, n).value + Token(g) + SubstitutePrefix(b, mapping, bind, n).value
  {
    SubstituteSucceeds(a + Token(g) + b, mapping, bind, n);
    SubstituteSucceeds(a, mapping, bind, n);
    SubstituteSucceeds(b, mapping, bind, n);
    if n > 0 {
      UnmappedTokenKept(a, g, b, mapping, bind, n - 1);
      var f := mapping[n - 1];
      var prevA := SubstitutePrefix(a, mapping, bind, n - 1);
      var prevB := SubstitutePrefix(b, mapping, bind, n - 1);
      if prevA.Some? && bind(f).Some? {
        SubstituteKeepsOtherToken(prevA.value, g, prevB.value, f.name, bind(f).value);
      }
    }
  }

  // ---------------------------------------------------------------------------
  // The style-list preview resolver

  /** The value of the first candidate that is neither missing nor `''`. */
  function FirstAccepted(item: Record, keys: seq<string>): (r: Option<Value>)
    ensures r.None? <==> forall j :: 0 <= j < |keys| ==> !AcceptedAt(item, keys[j])
    ensures r.Some? ==> r.value != Str([])
  {
    if keys == [] then None
    else if AcceptedAt(item, keys[0]) then Get(item, keys[0])
    else FirstAccepted(item, keys[1..])
  }

  lemma {:induction false} FirstAcceptedIsFirst(item: Record, keys: seq<string>, j: nat)
    requires j < |keys| && AcceptedAt(item, keys[j])
    requires forall i :: 0 <= i < j ==> !AcceptedAt(item, keys[i])
    ensures FirstAccepted(item, keys) == Get(item, keys[j])
  {
    if j > 0 {
      assert !AcceptedAt(item, keys[0]);
      FirstAcceptedIsFirst(item, keys[1..], j - 1);
    }
  }

  /**
   * A field's value in the preview: the first candidate that is present and
   * not `''`, replaced by the default when that value is falsy (`0`,
   * `false`, `null`); no record at all means every field takes its default.
   */
  function PreviewValue(data: Option<Record>, fields: FieldDefaults, f: Field): Value {
    var found := if data.Some? then FirstAccepted(data.value, f.candidates) else None;
    if found.Some? && Truthy(found.value) then found.value else Str(DefaultOf(fields, f.name))
  }

  /** `fieldValues` after the first `n` fields: one entry per field, in mapping order. */
  function PreviewValues(data: Option<Record>, fields: FieldDefaults, mapping: DataMapping, n: nat): Record
    requires n <= |mapping|
  {
    if n == 0 then []
    else
      var f := mapping[n - 1];
      Assign(PreviewValues(data, fields, mapping, n - 1), f.name, PreviewValue(data, fields, f))
  }

  lemma PreviewValuesStep(data: Option<Record>, fields: FieldDefaults, mapping: DataMapping, n: nat)
    requires n < |mapping|
    ensures PreviewValues(data, fields, mapping, n + 1)
         == Assign(PreviewValues(data, fields, mapping, n), mapping[n].name, PreviewValue(data, fields, mapping[n]))
  {
  }

  /**
   * The image entry after conversion: converted only when truthy and
   * different from the image default; a non-string value that gets here
   * makes `trim` throw.
   */
  function PreviewImage(values: Record, imageDefault: string): Option<Record> {
    match Get(values, "image")
    case Some(v) =>
      if Truthy(v) && v != Str(imageDefault) then
        if v.Str? then Some(Assign(values, "image", Str(AssetUrl.ConvertDriveUrl(v.s)))) else None
      else Some(values)
    case None => Some(values)
  }

  /** The template after the first `n` entries of `values` are substituted. */
  function SubstituteEntries(t: string, values: Record, n: nat): string
    requires n <= |values|
  {
    if n == 0 then t
    else Substitute(SubstituteEntries(t, values, n - 1), values[n - 1].0, ToText(values[n - 1].1))
  }

  /** The inner loop of the preview resolver: `''` when every candidate is missing or `''`. */
  method FirstAcceptedCandidate(item: Record, keys: seq<string>) returns (value: Value)
    ensures value == FirstAccepted(item, keys).GetOr(Str([]))
  {
    value := Str([]);
    var k := 0;
    while k < |keys|
      invariant 0 <= k <= |keys|
      invariant forall i :: 0 <= i < k ==> !AcceptedAt(item, keys[i])
    {
      var v := Get(item, keys[k]);
      if v.Some? && v.value != Str([]) {
        FirstAcceptedIsFirst(item, keys, k);
        return v.value;
      }
      k := k + 1;
    }
  }

  /** What the preview branch of `renderStyleSets` puts into a style's card. */
  function PreviewCard(html: string, mapping: DataMapping, fields: FieldDefaults, data: Option<Record>): Option<string> {
    var values := PreviewValues(data, fields, mapping, |mapping|);
    match PreviewImage(values, DefaultOf(fields, "image"))
    case None => None
    case Some(vs) => Some(InjectCrossOrigin(SubstituteEntries(html, vs, |vs|)))
  }

  /** One field's value in the preview: the first present, non-empty candidate when truthy, else the default. */
  method PreviewField(data: Option<Record>, fields: FieldDefaults, f: Field) returns (value: Value)
    ensures value == PreviewValue(data, fields, f)
  {
    value := Str([]);
    if data.Some? {
      value := FirstAcceptedCandidate(data.value, f.candidates);
    }
    if !Truthy(value) {
      value := Str(DefaultOf(fields, f.name));
    }
  }

  /** The first loop of the preview branch: one `fieldValues` entry per mapped field. */
  method PreviewFieldValues(mapping: DataMapping, fields: FieldDefaults, data: Option<Record>)
    returns (fieldValues: Record)
    ensures fieldValues == PreviewValues(data, fields, mapping, |mapping|)
  {
    fieldValues := [];
    var n := 0;
    while n < |mapping|
      invariant 0 <= n <= |mapping|
      invariant fieldValues == PreviewValues(data, fields, mapping, n)
    {
      var f := mapping[n];
      var value := PreviewField(data, fields, f);
      PreviewValuesStep(data, fields, mapping, n);
      fieldValues := Assign(fieldValues, f.name, value);
      n := n + 1;
    }
  }

  /** The preview branch of `renderStyleSets` (the markup part): resolve, convert the image, substitute, tag images. */
  method RenderPreviewCard(html: string, mapping: DataMapping, fields: FieldDefaults, data: Option<Record>)
    returns (r: Option<string>)
    ensures r == PreviewCard(html, mapping, fields, data)
  {
    var imageDefault := DefaultOf(fields, "image");
    var fieldValues := PreviewFieldValues(mapping, fields, data);
    var image := Get(fieldValues, "image");
    if image.Some? && Truthy(image.value) && image.value != Str(imageDefault) {
      if !image.value.Str? {
        return None;
      }
      fieldValues := Assign(fieldValues, "image", Str(AssetUrl.ConvertDriveUrl(image.value.s)));
    }
    var template := html;
    var e := 0;
    while e < |fieldValues|
      invariant 0 <= e <= |fieldValues|
      invariant template == SubstituteEntries(html, fieldValues, e)
    {
      template := Substitute(template, fieldValues[e].0, ToText(fieldValues[e].1));
      e := e + 1;
    }
    return Some(InjectCrossOrigin(template));
  }

  /**
   * The two resolvers part ways on a falsy first candidate: the template
   * path skips `0` and moves on to the next column, the preview stops at it
   * and falls back to the default.
   */
  lemma ResolversDifferOnFalsyCandidate(fields: FieldDefaults)
    ensures var item := [("stock", Num("0")), ("qty", Str("5"))];
      var f := Field("count", ["stock", "qty"]);
      && ResolveValue(item, fields, f) == Str("5")
      && PreviewValue(Some(item), fields, f) == Str(DefaultOf(fields, "count"))
  {
    var item := [("stock", Num("0")), ("qty", Str("5"))];
    assert Get(item, "stock") == Some(Num("0"));
    assert Get(item, "qty") == Some(Str("5"));
    FirstTruthyIsFirst(item, ["stock", "qty"], 1);
    FirstAcceptedIsFirst(item, ["stock", "qty"], 0);
  }

  /**
   * The image default is converted on the template path but kept as written
   * in the preview: when the resolved image is the default, the preview
   * leaves it alone.
   */
  lemma PreviewKeepsImageDefault(values: Record, imageDefault: string)
    requires Get(values, "image") == Some(Str(imageDefault))
    ensures PreviewImage(values, imageDefault) == Some(values)
    ensures BoundText("image", Str(imageDefault), AssetUrl.ConvertDriveUrl) ==
      Some(if imageDefault == [] then [] else AssetUrl.ConvertDriveUrl(imageDefault))
  {
  }

  // ---------------------------------------------------------------------------
  // renderCard (legacy)

  /** One piece of a legacy card, in the order the pieces are emitted. */
  datatype Piece =
    | Image(src: string, alt: string, original: string)
    | Subtitle(text: string)
    | Heading(text: string)
    | Price(text: string)
    | Paragraph(text: string)
    | Tags(tags: seq<string>)

  function Rank(p: Piece): nat {
    match p
    case Image(_, _, _) => 0
    case Subtitle(_) => 1
    case Heading(_) => 2
    case Price(_) => 3
    case Paragraph(_) => 4
    case Tags(_) => 5
  }

  /** `k.toLowerCase()` contains one of `words`. */
  predicate Mentions(k: string, words: seq<string>) {
    exists w :: w in words && Text.Contains(Text.ToLower(k), w)
  }

  /** `keys.find(k => …)`: the first key that mentions one of `words`. */
  function KeyWith(keys: seq<string>, words: seq<string>): (r: Option<string>)
    ensures r.None? <==> forall j :: 0 <= j < |keys| ==> !Mentions(keys[j], words)
    ensures r.Some? ==> r.value in keys && Mentions(r.value, words)
  {
    if keys == [] then None
    else if Mentions(keys[0], words) then Some(keys[0])
    else KeyWith(keys[1..], words)
  }

  /** Keys are tried in object order: the first key that mentions a word is the one found. */
  lemma {:induction false} KeyWithIsFirst(keys: seq<string>, words: seq<string>, j: nat)
    requires j < |keys| && Mentions(keys[j], words)
    requires forall i :: 0 <= i < j ==> !Mentions(keys[i], words)
    ensures KeyWith(keys, words) == Some(keys[j])
  {
    if j > 0 {
      assert !Mentions(keys[0], words);
      KeyWithIsFirst(keys[1..], words, j - 1);
    }
  }

  /** The name column: the first key mentioning `name`, or else the first key. */
  function NameKey(keys: seq<string>): (r: Option<string>)
    ensures KeyWith(keys, ["name"]).Some? ==> r == KeyWith(keys, ["name"])
    ensures KeyWith(keys, ["name"]).None? ==> r == (if keys == [] then None else Some(keys[0]))
    ensures r.None? <==> keys == []
    ensures r.Some? ==> r.value in keys
  {
    var k := KeyWith(keys, ["name"]);
    if k.Some? then k else if keys == [] then None else Some(keys[0])
  }

  /** `key && item[key]`: the value in a role's column when there is a non-empty key and a truthy value. */
  function RoleValue(item: Record, key: Option<string>): (r: Option<Value>)
    ensures r.Some? <==> key.Some? && key.value != [] && TruthyAt(item, key.value)
    ensures r.Some? ==> Get(item, key.value) == Some(r.value)
  {
    if key.Some? && key.value != [] && TruthyAt(item, key.value) then Get(item, key.value) else None
  }

  /** The role columns of a record. */
  datatype Roles = Roles(name: Option<string>, desc: Option<string>, price: Option<string>,
                         image: Option<string>, tags: Option<string>, subtitle: Option<string>)

  function RolesOf(item: Record): Roles {
    var keys := Keys(item);
    Roles(NameKey(keys), KeyWith(keys, ["desc", "description"]), KeyWith(keys, ["price"]),
          KeyWith(keys, ["image", "url"]), KeyWith(keys, ["tag"]), KeyWith(keys, ["subtitle", "category"]))
  }

  /** `item[nameKey] || ''`: the alt text, which reads the name column even when its key is empty. */
  function AltText(item: Record, nameKey: Option<string>): string {
    if nameKey.Some? && TruthyAt(item, nameKey.value) then ToText(Get(item, nameKey.value).value) else []
  }

  /** Each of `parts` trimmed, in order. */
  function TrimEach(parts: seq<string>): (r: seq<string>)
    ensures |r| == |parts|
  {
    if parts == [] then [] else TrimEach(parts[..|parts| - 1]) + [Text.Trim(parts[|parts| - 1])]
  }

  lemma {:induction false} TrimEachAt(parts: seq<string>, k: nat)
    requires k < |parts|
    ensures TrimEach(parts)[k] == Text.Trim(parts[k])
  {
    var init := parts[..|parts| - 1];
    assert TrimEach(parts) == TrimEach(init) + [Text.Trim(parts[|parts| - 1])];
    if k < |parts| - 1 {
      TrimEachAt(init, k);
      assert init[k] == parts[k];
    }
  }

  /** `s.split(',').map(t => t.trim())`. */
  function TagList(s: string): seq<string> {
    TrimEach(Text.Split(s, ','))
  }

  /** The resolved content of a legacy card, each part present when its column holds a truthy value. */
  datatype LegacyParts = LegacyParts(image: Option<Piece>, subtitle: Option<string>, heading: Option<string>,
                                     price: Option<string>, paragraph: Option<string>, tags: Option<seq<string>>)

  /** `String(v)` of a role value that is there. */
  function TextOf(v: Option<Value>): (r: Option<string>)
    ensures r.Some? <==> v.Some?
    ensures v.Some? ==> r.value == ToText(v.value)
  {
    if v.Some? then Some(ToText(v.value)) else None
  }

  /** The parts of a legacy card; `None` when an image or tag value is not a string (`.split` would throw). */
  function LegacyPartsOf(item: Record): Option<LegacyParts> {
    var roles := RolesOf(item);
    var image := RoleValue(item, roles.image);
    var tags := RoleValue(item, roles.tags);
    if (image.Some? && !image.value.Str?) || (tags.Some? && !tags.value.Str?) then None
    else
      Some(LegacyParts(
        if image.Some? then Some(Image(AssetUrl.ConvertDriveUrl(image.value.s), AltText(item, roles.name), image.value.s)) else None,
        TextOf(RoleValue(item, roles.subtitle)),
        TextOf(RoleValue(item, roles.name)),
        TextOf(RoleValue(item, roles.price)),
        TextOf(RoleValue(item, roles.desc)),
        if tags.Some? then Some(TagList(tags.value.s)) else None))
  }

  /** `html += piece` when the piece is there. */
  function Then(html: seq<Piece>, piece: Option<Piece>): (r: seq<Piece>)
    ensures piece.None? ==> r == html
    ensures piece.Some? ==> r == html + [piece.value]
  {
    if piece.Some? then html + [piece.value] else html
  }

  /** The pieces a legacy card can hold, each present when its part is, in emission order. */
  function Slots(p: LegacyParts): seq<Option<Piece>> {
    [ p.image,
      if p.subtitle.Some? then Some(Subtitle(p.subtitle.value)) else None,
      if p.heading.Some? then Some(Heading(p.heading.value)) else None,
      if p.price.Some? then Some(Price(p.price.value)) else None,
      if p.paragraph.Some? then Some(Paragraph(p.paragraph.value)) else None,
      if p.tags.Some? then Some(Tags(p.tags.value)) else None ]
  }

  /** The pieces present among six slots, kept in slot order. */
  function Fill(slots: seq<Option<Piece>>): seq<Piece>
    requires |slots| == 6
  {
    Then(Then(Then(Then(Then(Then([], slots[0]), slots[1]), slots[2]), slots[3]), slots[4]), slots[5])
  }

  /** The pieces of a legacy card in emission order: image, subtitle, heading, price, paragraph, tags. */
  function Assemble(p: LegacyParts): seq<Piece> {
    Fill(Slots(p))
  }

  /** What `renderCard` emits without a template. */
  function LegacyCard(item: Record): Option<seq<Piece>> {
    match LegacyPartsOf(item)
    case None => None
    case Some(p) => Some(Assemble(p))
  }

  /** The trimmed comma-separated tags, collected one by one. */
  method CollectTags(s: string) returns (badges: seq<string>)
    ensures badges == TagList(s)
  {
    var parts := Text.Split(s, ',');
    badges := [];
    var k := 0;
    while k < |parts|
      invariant 0 <= k <= |parts|
      invariant badges == TrimEach(parts[..k])
    {
      assert parts[..k + 1][..k] == parts[..k];
      badges := badges + [Text.Trim(parts[k])];
      k := k + 1;
    }
    assert parts[..k] == parts;
  }

  /** `renderCard` on a style without a template: the parts are read, then appended one by one. */
  method RenderLegacyCard(item: Record) returns (r: Option<seq<Piece>>)
    ensures r == LegacyCard(item)
  {
    var parts := LegacyPartsOf(item);
    if parts.None? {
      return None;
    }
    var tagValue := RoleValue(item, RolesOf(item).tags);
    var tagText := if tagValue.Some? then Some(tagValue.value.s) else None;
    var html := AppendParts(parts.value, tagText);
    return Some(html);
  }

  /** The appends of `renderCard`: each part that is there, in order; the badges are collected from the raw tag text. */
  method AppendParts(p: LegacyParts, tagText: Option<string>) returns (html: seq<Piece>)
    requires p.tags == (if tagText.Some? then Some(TagList(tagText.value)) else None)
    ensures html == Assemble(p)
  {
    html := [];
    if p.image.Some? {
      html := html + [p.image.value];
    }
    if p.subtitle.Some? {
      html := html + [Subtitle(p.subtitle.value)];
    }
    if p.heading.Some? {
      html := html + [Heading(p.heading.value)];
    }
    if p.price.Some? {
      html := html + [Price(p.price.value)];
    }
    if p.paragraph.Some? {
      html := html + [Paragraph(p.paragraph.value)];
    }
    if tagText.Some? {
      var badges := CollectTags(tagText.value);
      html := html + [Tags(badges)];
    }
  }

  /** Legacy pieces come in the fixed order image, subtitle, heading, price, paragraph, tags, each at most once. */
  lemma LegacyCardOrder(item: Record)
    requires LegacyCard(item).Some?
    ensures var ps := LegacyCard(item).value;
      forall i, j :: 0 <= i < j < |ps| ==> Rank(ps[i]) < Rank(ps[j])
  {
    AssembleOrder(LegacyPartsOf(item).value);
  }

  /** No two pieces out of emission order. */
  predicate Ascending(ps: seq<Piece>) {
    forall i, j :: 0 <= i < j < |ps| ==> Rank(ps[i]) < Rank(ps[j])
  }

  predicate RanksBelow(ps: seq<Piece>, n: int) {
    forall i :: 0 <= i < |ps| ==> Rank(ps[i]) < n
  }

  /** Some piece of `ps` has rank `n`. */
  predicate HasRank(ps: seq<Piece>, n: int) {
    exists i :: 0 <= i < |ps| && Rank(ps[i]) == n
  }

  lemma ThenKeepsOrder(html: seq<Piece>, piece: Option<Piece>, n: int)
    requires Ascending(html) && RanksBelow(html, n)
    requires piece.Some? ==> Rank(piece.value) == n
    ensures Ascending(Then(html, piece)) && RanksBelow(Then(html, piece), n + 1)
  {
  }

  lemma ThenRanks(html: seq<Piece>, piece: Option<Piece>)
    ensures forall n :: HasRank(Then(html, piece), n) <==> HasRank(html, n) || (piece.Some? && Rank(piece.value) == n)
  {
    if piece.Some? {
      var r := Then(html, piece);
      assert r[|html|] == piece.value;
      forall n | HasRank(r, n) ensures HasRank(html, n) || Rank(piece.value) == n {
        var i :| 0 <= i < |r| && Rank(r[i]) == n;
        if i < |html| {
          assert r[i] == html[i];
        }
      }
      forall n | HasRank(html, n) ensures HasRank(r, n) {
        var i :| 0 <= i < |html| && Rank(html[i]) == n;
        assert r[i] == html[i];
      }
    }
  }

  /** Slot `k` holds, when filled, a piece of rank `k`. */
  predicate RankedSlots(slots: seq<Option<Piece>>) {
    forall k :: 0 <= k < |slots| && slots[k].Some? ==> Rank(slots[k].value) == k
  }

  /** Filling ranked slots gives strictly ascending ranks. */
  lemma FillOrder(slots: seq<Option<Piece>>)
    requires |slots| == 6 && RankedSlots(slots)
    ensures Ascending(Fill(slots))
  {
    var h0 := Then([], slots[0]);
    ThenKeepsOrder([], slots[0], 0);
    var h1 := Then(h0, slots[1]);
    ThenKeepsOrder(h0, slots[1], 1);
    var h2 := Then(h1, slots[2]);
    ThenKeepsOrder(h1, slots[2], 2);
    var h3 := Then(h2, slots[3]);
    ThenKeepsOrder(h2, slots[3], 3);
    var h4 := Then(h3, slots[4]);
    ThenKeepsOrder(h3, slots[4], 4);
    ThenKeepsOrder(h4, slots[5], 5);
  }

  /** Filling ranked slots holds a piece of rank `n` exactly when slot `n` is filled. */
  lemma FillRanks(slots: seq<Option<Piece>>, n: int)
    requires |slots| == 6 && RankedSlots(slots)
    ensures HasRank(Fill(slots), n) <==> 0 <= n < 6 && slots[n].Some?
  {
    var h0 := Then([], slots[0]);
    ThenRanks([], slots[0]);
    var h1 := Then(h0, slots[1]);
    ThenRanks(h0, slots[1]);
    var h2 := Then(h1, slots[2]);
    ThenRanks(h1, slots[2]);
    var h3 := Then(h2, slots[3]);
    ThenRanks(h2, slots[3]);
    var h4 := Then(h3, slots[4]);
    ThenRanks(h3, slots[4]);
    ThenRanks(h4, slots[5]);
  }

  /** Legacy pieces come out in strictly ascending rank. */
  lemma AssembleOrder(p: LegacyParts)
    requires p.image.Some? ==> p.image.value.Image?
    ensures Ascending(Assemble(p))
  {
    FillOrder(Slots(p));
  }

  /** Which ranks a legacy card holds: exactly those of the parts that are there. */
  lemma AssembleRanks(p: LegacyParts)
    requires p.image.Some? ==> p.image.value.Image?
    ensures HasRank(Assemble(p), 0) <==> p.image.Some?
    ensures HasRank(Assemble(p), 1) <==> p.subtitle.Some?
    ensures HasRank(Assemble(p), 2) <==> p.heading.Some?
    ensures HasRank(Assemble(p), 3) <==> p.price.Some?
    ensures HasRank(Assemble(p), 4) <==> p.paragraph.Some?
    ensures HasRank(Assemble(p), 5) <==> p.tags.Some?
  {
    forall n | 0 <= n < 6 ensures HasRank(Assemble(p), n) <==> Slots(p)[n].Some? {
      FillRanks(Slots(p), n);
    }
  }

  /**
   * A heading, a price, a paragraph and a tag list appear exactly when
   * their columns exist and hold truthy values; the heading falls back to
   * the first column when no column mentions `name`.
   */
  lemma LegacyCardPieces(item: Record)
    requires LegacyCard(item).Some?
    ensures var ps := LegacyCard(item).value; var roles := RolesOf(item);
      && ((exists i :: 0 <= i < |ps| && ps[i].Heading?) <==> RoleValue(item, roles.name).Some?)
      && ((exists i :: 0 <= i < |ps| && ps[i].Price?) <==> RoleValue(item, roles.price).Some?)
      && ((exists i :: 0 <= i < |ps| && ps[i].Paragraph?) <==> RoleValue(item, roles.desc).Some?)
      && ((exists i :: 0 <= i < |ps| && ps[i].Tags?) <==> RoleValue(item, roles.tags).Some?)
  {
    AssembleKinds(LegacyPartsOf(item).value);
  }

  lemma AssembleKinds(p: LegacyParts)
    requires p.image.Some? ==> p.image.value.Image?
    ensures var ps := Assemble(p);
      && ((exists i :: 0 <= i < |ps| && ps[i].Heading?) <==> p.heading.Some?)
      && ((exists i :: 0 <= i < |ps| && ps[i].Price?) <==> p.price.Some?)
      && ((exists i :: 0 <= i < |ps| && ps[i].Paragraph?) <==> p.paragraph.Some?)
      && ((exists i :: 0 <= i < |ps| && ps[i].Tags?) <==> p.tags.Some?)
  {
    AssembleRanks(p);
    KindsByRank(Assemble(p));
  }

  /** A kind of piece is present exactly when its rank is. */
  lemma KindsByRank(ps: seq<Piece>)
    ensures (exists i :: 0 <= i < |ps| && ps[i].Heading?) <==> HasRank(ps, 2)
    ensures (exists i :: 0 <= i < |ps| && ps[i].Price?) <==> HasRank(ps, 3)
    ensures (exists i :: 0 <= i < |ps| && ps[i].Paragraph?) <==> HasRank(ps, 4)
    ensures (exists i :: 0 <= i < |ps| && ps[i].Tags?) <==> HasRank(ps, 5)
  {
    assert forall i :: 0 <= i < |ps| ==> (ps[i].Heading? <==> Rank(ps[i]) == 2);
    assert forall i :: 0 <= i < |ps| ==> (ps[i].Price? <==> Rank(ps[i]) == 3);
    assert forall i :: 0 <= i < |ps| ==> (ps[i].Paragraph? <==> Rank(ps[i]) == 4);
    assert forall i :: 0 <= i < |ps| ==> (ps[i].Tags? <==> Rank(ps[i]) == 5);
  }

  // ---------------------------------------------------------------------------
  // renderCard: the dispatch

  /** A rendered card body: template markup, or the pieces of a legacy card. */
  datatype CardBody = Markup(html: string) | Pieces(pieces: seq<Piece>)

  /**
   * `renderCard`: a current style in the new format with template markup
   * binds the record into that template; anything else gets a legacy card.
   */
  method RenderCard(current: Option<StyleSet>, item: Record) returns (r: Option<CardBody>)
    ensures current.Some? && TemplateHtml(current.value).Some? ==>
      r == (match TemplateCard(TemplateHtml(current.value).value, current.value.dataMapping.GetOr([]),
                               current.value.fields, item)
            case Some(h) => Some(Markup(h))
            case None => None)
    ensures !(current.Some? && TemplateHtml(current.value).Some?) ==>
      r == (match LegacyCard(item) case Some(ps) => Some(Pieces(ps)) case None => None)
  {
    if current.Some? && TemplateHtml(current.value).Some? {
      var s := current.value;
      var h := RenderCardFromTemplate(TemplateHtml(s).value, s.dataMapping.GetOr([]), s.fields, item);
      r := if h.Some? then Some(Markup(h.value)) else None;
    } else {
      var ps := RenderLegacyCard(item);
      r := if ps.Some? then Some(Pieces(ps.value)) else None;
    }
  }
}
