/**
 * The video page turns the stored YouTube link of a video into the URL of
 * an embeddable player.  Watch links (`youtube.com/watch?v=ID&...`) and
 * short links (`youtu.be/ID?...`) are rewritten to
 * `https://www.youtube.com/embed/ID`; embed links and anything else are
 * left as they are, and a missing link gives the empty string.
 */
module VideoDetail {
  import opened JsValue
  import opened JsString

  const EmbedPrefix: string := "https://www.youtube.com/embed/"
  const WatchMarker: string := "youtube.com/watch?v="
  const ShortMarker: string := "youtu.be/"
  const EmbedMarker: string := "youtube.com/embed/"

  /**
   * `url.split('v=')[1].split('&')[0]`: the text after the first `v=`, up to
   * the first `&`, the next `v=` or the end.
   */
  function WatchId(u: string): (id: string)
    requires Includes(u, "v=")
    ensures AfterFirst(u, "v=", IndexOf(u, "v=") + 2, id, '&')
  {
    var t := Split(u, "v=")[1];
    var id := Split(t, "&")[0];
    PieceAfterFirst(u, "v=", '&', IndexOf(u, "v=") + 2, t, id);
    id
  }

  /**
   * `url.split('youtu.be/')[1].split('?')[0]`: the text after the first
   * `youtu.be/`, up to the first `?`, the next `youtu.be/` or the end.
   */
  function ShortId(u: string): (id: string)
    requires Includes(u, ShortMarker)
    ensures AfterFirst(u, ShortMarker, IndexOf(u, ShortMarker) + |ShortMarker|, id, '?')
  {
    var t := Split(u, ShortMarker)[1];
    var id := Split(t, "?")[0];
    PieceAfterFirst(u, ShortMarker, '?', IndexOf(u, ShortMarker) + |ShortMarker|, t, id);
    id
  }

  /** `getYouTubeEmbedUrl(url)`; `None` stands for `null` or `undefined`. */
  function EmbedUrl(url: Option<string>): (r: string)
    ensures r == "" <==> url == None || url == Some("")
    ensures url.Some? ==> r == url.value || (|EmbedPrefix| <= |r| && r[..|EmbedPrefix|] == EmbedPrefix)
  {
    if url == None || url == Some("") then ""
    else
      var u := url.value;
      if Includes(u, WatchMarker) then
        WatchMarkerHasV(u);
        EmbedPrefix + WatchId(u)
      else if Includes(u, ShortMarker) then
        EmbedPrefix + ShortId(u)
      else if Includes(u, EmbedMarker) then
        u
      else
        u
  }

  /** A watch link holds `v=` inside its marker. */
  lemma WatchMarkerHasV(u: string)
    requires Includes(u, WatchMarker)
    ensures Includes(u, "v=")
  {
    assert OccursAt(WatchMarker, "v=", 18);
    OccursInOccurrence(u, WatchMarker, "v=", IndexOf(u, WatchMarker), 18);
    OccurrenceIncludes(u, "v=", IndexOf(u, WatchMarker) + 18);
  }

  /** A string without `?` holds no watch marker. */
  lemma NoQueryNoWatch(s: string)
    requires !Includes(s, "?")
    ensures !Includes(s, WatchMarker)
  {
    if Includes(s, WatchMarker) {
      assert OccursAt(WatchMarker, "?", 17);
      OccursInOccurrence(s, WatchMarker, "?", IndexOf(s, WatchMarker), 17);
      OccurrenceIncludes(s, "?", IndexOf(s, WatchMarker) + 17);
    }
  }

  /** A string without `v=` holds no watch marker. */
  lemma NoVNoWatch(s: string)
    requires !Includes(s, "v=")
    ensures !Includes(s, WatchMarker)
  {
    if Includes(s, WatchMarker) {
      WatchMarkerHasV(s);
    }
  }

  /** The embed prefix cannot complete a short marker that the id lacks. */
  lemma PrefixAddsNoShortMarker(id: string)
    requires !Includes(id, ShortMarker)
    ensures !Includes(EmbedPrefix + id, ShortMarker)
  {
    var s := EmbedPrefix + id;
    if Includes(s, ShortMarker) {
      var k := IndexOf(s, ShortMarker);
      assert s[k..k + 9][0] == 'y' && s[k..k + 9][5] == '.';
      PrefixHasOneY();
      if k >= |EmbedPrefix| {
        assert s[k..k + 9] == id[k - 30..k - 30 + 9];
        OccurrenceIncludes(id, ShortMarker, k - 30);
      }
    }
  }

  /** Neither `v` nor `?` occurs in the embed prefix. */
  lemma PrefixLacks(c: char)
    requires c == 'v' || c == '?'
    ensures forall k :: 0 <= k < |EmbedPrefix| ==> EmbedPrefix[k] != c
  {
  }

  /** The only `y` of the embed prefix starts `youtube.com`. */
  lemma PrefixHasOneY()
    ensures forall k :: 0 <= k < |EmbedPrefix| && EmbedPrefix[k] == 'y' ==> k == 12
  {
  }

  /** Every rewritten link holds the embed marker right after the scheme and host prefix. */
  lemma RewrittenIsEmbed(id: string)
    ensures Includes(EmbedPrefix + id, EmbedMarker)
  {
    assert (EmbedPrefix + id)[12..30] == EmbedMarker;
    OccurrenceIncludes(EmbedPrefix + id, EmbedMarker, 12);
  }

  /** The watch marker is checked first, so a link holding both markers is treated as a watch link. */
  lemma WatchFirst(u: string)
    requires Includes(u, WatchMarker)
    ensures Includes(u, "v=") && EmbedUrl(Some(u)) == EmbedPrefix + WatchId(u)
  {
    WatchMarkerHasV(u);
  }

  /** A short link without a watch marker becomes the prefix plus the short id. */
  lemma ShortLink(u: string)
    requires !Includes(u, WatchMarker) && Includes(u, ShortMarker)
    ensures EmbedUrl(Some(u)) == EmbedPrefix + ShortId(u)
  {
  }

  /** A rewritten watch link holds no `v=`, so it differs from the link it came from. */
  lemma WatchRewriteDiffers(u: string)
    requires Includes(u, WatchMarker)
    ensures Includes(u, "v=") && !Includes(EmbedPrefix + WatchId(u), "v=") && EmbedPrefix + WatchId(u) != u
  {
    WatchMarkerHasV(u);
    var id := WatchId(u);
    assert !Includes(id, "v=");
    PrefixLacks('v');
    NotAcross(EmbedPrefix, id, "v=");
  }

  /** A rewritten short link holds no short marker, so it differs from the link it came from. */
  lemma ShortRewriteDiffers(u: string)
    requires Includes(u, ShortMarker)
    ensures !Includes(EmbedPrefix + ShortId(u), ShortMarker) && EmbedPrefix + ShortId(u) != u
  {
    PrefixAddsNoShortMarker(ShortId(u));
  }

  /** A link is returned unchanged exactly when it holds neither a watch nor a short marker. */
  lemma UnchangedExactly(u: string)
    requires u != ""
    ensures EmbedUrl(Some(u)) == u <==> !Includes(u, WatchMarker) && !Includes(u, ShortMarker)
  {
    if Includes(u, WatchMarker) {
      WatchRewriteDiffers(u);
    } else if Includes(u, ShortMarker) {
      ShortRewriteDiffers(u);
    }
  }

  /** Rewriting an already rewritten link changes nothing, unless a watch id itself holds a short marker. */
  lemma EmbedIdempotent(u: string)
    requires Includes(u, WatchMarker) ==> Includes(u, "v=") && !Includes(WatchId(u), ShortMarker)
    ensures EmbedUrl(Some(EmbedUrl(Some(u)))) == EmbedUrl(Some(u))
  {
    if u != "" {
      if Includes(u, WatchMarker) {
        var r := EmbedPrefix + WatchId(u);
        WatchRewriteDiffers(u);
        NoVNoWatch(r);
        PrefixAddsNoShortMarker(WatchId(u));
        RewrittenIsEmbed(WatchId(u));
        assert EmbedUrl(Some(u)) == r;
      } else if Includes(u, ShortMarker) {
        var r := EmbedPrefix + ShortId(u);
        PrefixLacks('?');
        NotAcross(EmbedPrefix, ShortId(u), "?");
        NoQueryNoWatch(r);
        ShortRewriteDiffers(u);
        RewrittenIsEmbed(ShortId(u));
        assert EmbedUrl(Some(u)) == r;
      }
    }
  }
}
