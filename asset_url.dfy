/**
 * The asset-URL normaliser: Google Drive and Docs share links are rewritten
 * to the one direct-image form the cards can load; anything else is only
 * trimmed.
 */
module AssetUrl {
  import opened Wrappers
  import Text

  /** The three share-link shapes, in the order they are tried. */
  const FileLink: string := "drive.google.com/file/d/"
  const OpenLink: string := "drive.google.com/open?id="
  const DocsLink: string := "docs.google.com/uc?id="

  const ImageHost: string := "https://lh3.googleusercontent.com/d/"
  const ImageSize: string := "=w1600"

  /** The direct-image URL for a file id. */
  function Canonical(id: string): string {
    ImageHost + id + ImageSize
  }

  /**
   * The file id of the first shape that matches, if any: a file link wins
   * over an open link wherever each occurs, and an open link over a docs link.
   */
  function ShareLinkId(t: string): (r: Option<string>)
    ensures r.Some? ==> r.value != [] && forall k :: 0 <= k < |r.value| ==> Text.IsIdChar(r.value[k])
    ensures r.None? <==>
      forall j :: !Text.MatchesAt(t, FileLink, j) && !Text.MatchesAt(t, OpenLink, j) && !Text.MatchesAt(t, DocsLink, j)
    ensures (exists j :: Text.MatchesAt(t, FileLink, j)) ==> r == Text.FindIdAfter(t, FileLink)
    ensures (forall j :: !Text.MatchesAt(t, FileLink, j)) && (exists j :: Text.MatchesAt(t, OpenLink, j)) ==>
      r == Text.FindIdAfter(t, OpenLink)
    ensures (forall j :: !Text.MatchesAt(t, FileLink, j) && !Text.MatchesAt(t, OpenLink, j)) ==>
      r == Text.FindIdAfter(t, DocsLink)
  {
    var file := Text.FindIdAfter(t, FileLink);
    if file.Some? then file
    else
      var open := Text.FindIdAfter(t, OpenLink);
      if open.Some? then open else Text.FindIdAfter(t, DocsLink)
  }

  /**
   * `convertGoogleDriveUrl`: the empty string stays empty; otherwise the
   * trimmed URL is rewritten when a share-link shape followed by an id
   * occurs in it, and returned trimmed when none does.
   */
  function ConvertDriveUrl(url: string): (r: string)
    ensures url == [] ==> r == []
    ensures Text.Trimmed(r)
    ensures ShareLinkId(Text.Trim(url)).None? ==> r == Text.Trim(url)
    ensures ShareLinkId(Text.Trim(url)).Some? ==>
      IsFileId(ShareLinkId(Text.Trim(url)).value) && r == Canonical(ShareLinkId(Text.Trim(url)).value)
  {
    if url == [] then []
    else
      var t := Text.Trim(url);
      match ShareLinkId(t)
      case Some(id) =>
        CanonicalTrimmed(id);
        assert IsFileId(id);
        Canonical(id)
      case None => t
  }

  /** A non-empty run of `[A-Za-z0-9_-]`, what the shapes capture. */
  predicate IsFileId(id: string) {
    id != [] && forall k :: 0 <= k < |id| ==> Text.IsIdChar(id[k])
  }

  lemma CanonicalTrimmed(id: string)
    ensures Text.Trimmed(Canonical(id))
  {
  }

  /** The only dots of a canonical URL are those of the host name, at 11 and 29. */
  lemma CanonicalDots(id: string)
    requires IsFileId(id)
    ensures forall k :: 0 <= k < |Canonical(id)| && k != 11 && k != 29 ==> Canonical(id)[k] != '.'
  {
    var c := Canonical(id);
    forall k | 0 <= k < |c| && k != 11 && k != 29 ensures c[k] != '.' {
      if |ImageHost| <= k < |ImageHost| + |id| {
        assert c[k] == id[k - |ImageHost|];
      } else if k >= |ImageHost| + |id| {
        assert c[k] == ImageSize[k - |ImageHost| - |id|];
      }
    }
  }

  /**
   * A pattern with two dots seven characters apart never matches a
   * canonical URL, whose only two dots are eighteen apart.
   */
  lemma NoMatchInCanonical(id: string, p: string, a: nat)
    requires IsFileId(id) && a + 7 < |p| && p[a] == '.' && p[a + 7] == '.'
    ensures forall j :: !Text.MatchesAt(Canonical(id), p, j)
  {
    var c := Canonical(id);
    CanonicalDots(id);
    forall j ensures !Text.MatchesAt(c, p, j) {
      if 0 <= j && j + |p| < |c| {
        assert c[j..j + |p|][a] == c[j + a];
        assert c[j..j + |p|][a + 7] == c[j + a + 7];
        assert c[j + a] != '.' || c[j + a + 7] != '.';
      }
    }
  }

  /** No share-link shape occurs in a canonical URL. */
  lemma CanonicalHasNoShareLink(id: string)
    requires IsFileId(id)
    ensures ShareLinkId(Canonical(id)).None?
  {
    NoMatchInCanonical(id, FileLink, 5);
    NoMatchInCanonical(id, OpenLink, 5);
    NoMatchInCanonical(id, DocsLink, 4);
  }

  /** Converting an already converted URL changes nothing. */
  lemma ConvertIdempotent(url: string)
    ensures ConvertDriveUrl(ConvertDriveUrl(url)) == ConvertDriveUrl(url)
  {
    var r := ConvertDriveUrl(url);
    Text.TrimOfTrimmed(r);
    if url != [] && ShareLinkId(Text.Trim(url)).Some? {
      var id := ShareLinkId(Text.Trim(url)).value;
      assert r == Canonical(id);
      CanonicalHasNoShareLink(id);
    }
  }

  /** The file-link shape is recognised in the middle of a longer URL, and the id is the whole id run after it. */
  lemma ConvertFileLink(pre: string, id: string, post: string)
    requires Text.Trimmed(pre + FileLink + id + post)
    requires IsFileId(id) && (post == [] || !Text.IsIdChar(post[0]))
    requires forall j :: 0 <= j < |pre| ==> !Text.MatchesAt(pre + FileLink + id + post, FileLink, j)
    ensures ConvertDriveUrl(pre + FileLink + id + post) == Canonical(id)
  {
    var s := pre + FileLink + id + post;
    ShapeIdFound(pre, FileLink, id, post);
    ConvertFound(s, id);
  }

  /** Without a file link, the open-link shape is recognised in the same way. */
  lemma ConvertOpenLink(pre: string, id: string, post: string)
    requires Text.Trimmed(pre + OpenLink + id + post)
    requires IsFileId(id) && (post == [] || !Text.IsIdChar(post[0]))
    requires forall j :: !Text.MatchesAt(pre + OpenLink + id + post, FileLink, j)
    requires forall j :: 0 <= j < |pre| ==> !Text.MatchesAt(pre + OpenLink + id + post, OpenLink, j)
    ensures ConvertDriveUrl(pre + OpenLink + id + post) == Canonical(id)
  {
    var s := pre + OpenLink + id + post;
    ShapeIdFound(pre, OpenLink, id, post);
    ConvertFound(s, id);
  }

  /** Without a file or open link, the docs shape is recognised in the same way. */
  lemma ConvertDocsLink(pre: string, id: string, post: string)
    requires Text.Trimmed(pre + DocsLink + id + post)
    requires IsFileId(id) && (post == [] || !Text.IsIdChar(post[0]))
    requires forall j :: !Text.MatchesAt(pre + DocsLink + id + post, FileLink, j)
    requires forall j :: !Text.MatchesAt(pre + DocsLink + id + post, OpenLink, j)
    requires forall j :: 0 <= j < |pre| ==> !Text.MatchesAt(pre + DocsLink + id + post, DocsLink, j)
    ensures ConvertDriveUrl(pre + DocsLink + id + post) == Canonical(id)
  {
    var s := pre + DocsLink + id + post;
    ShapeIdFound(pre, DocsLink, id, post);
    ConvertFound(s, id);
  }

  /**
   * A file link wins over a docs link that comes before it: in a URL that
   * starts with a docs link and an id, the docs shape matches, yet the id
   * converted is the file link's.
   */
  lemma FileLinkBeatsEarlierDocsLink(pre: string, id: string, post: string)
    requires Text.Trimmed(pre + FileLink + id + post)
    requires IsFileId(id) && (post == [] || !Text.IsIdChar(post[0]))
    requires forall j :: 0 <= j < |pre| ==> !Text.MatchesAt(pre + FileLink + id + post, FileLink, j)
    requires |DocsLink| < |pre| && pre[..|DocsLink|] == DocsLink && Text.IsIdChar(pre[|DocsLink|])
    ensures Text.FindIdAfter(pre + FileLink + id + post, DocsLink).Some?
    ensures ConvertDriveUrl(pre + FileLink + id + post) == Canonical(id)
  {
    var s := pre + FileLink + id + post;
    assert s[..|DocsLink|] == pre[..|DocsLink|];
    assert s[|DocsLink|] == pre[|DocsLink|];
    assert Text.MatchesAt(s, DocsLink, 0);
    ConvertFileLink(pre, id, post);
  }

  /** A trimmed URL whose share-link id is `id` converts to the canonical URL of `id`. */
  lemma ConvertFound(s: string, id: string)
    requires Text.Trimmed(s) && ShareLinkId(s) == Some(id)
    ensures ConvertDriveUrl(s) == Canonical(id)
  {
    Text.TrimOfTrimmed(s);
  }

  /** A shape finds `id` in `pre + shape + id + post` when it does not match inside `pre`. */
  lemma ShapeIdFound(pre: string, shape: string, id: string, post: string)
    requires IsFileId(id) && (post == [] || !Text.IsIdChar(post[0]))
    requires forall j :: 0 <= j < |pre| ==> !Text.MatchesAt(pre + shape + id + post, shape, j)
    ensures Text.FindIdAfter(pre + shape + id + post, shape) == Some(id)
  {
    var s := pre + shape + id + post;
    ShapeAt(pre, shape, id, post);
    assert s == (pre + shape) + (id + post);
    assert s[|pre + shape|..] == id + post;
    IdRunOf(id, post);
  }

  /** The leftmost match of a shape is the one right after `pre` when it does not match inside `pre`. */
  lemma ShapeAt(pre: string, shape: string, id: string, post: string)
    requires id != [] && Text.IsIdChar(id[0])
    requires forall j :: 0 <= j < |pre| ==> !Text.MatchesAt(pre + shape + id + post, shape, j)
    ensures Text.FindFrom(pre + shape + id + post, shape, 0) == Some(|pre|)
  {
    var s := pre + shape + id + post;
    var j := |pre|;
    assert s[j..j + |shape|] == shape;
    assert s[j + |shape|] == id[0];
    assert Text.MatchesAt(s, shape, j);
  }

  /** The greedy id run of `id + post` is `id` when `post` does not start with an id character. */
  lemma {:induction false} IdRunOf(id: string, post: string)
    requires forall k :: 0 <= k < |id| ==> Text.IsIdChar(id[k])
    requires post == [] || !Text.IsIdChar(post[0])
    ensures Text.IdRun(id + post) == id
  {
    if id != [] {
      assert (id + post)[1..] == id[1..] + post;
      IdRunOf(id[1..], post);
    }
  }
}
