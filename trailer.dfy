/**
 * The trailer link rewrite used when a release tile is clicked: a
 * `watch?v=` page address becomes an `embed/` address that starts playing.
 */
module Trailer {
  import opened Text

  const WatchPath := "watch?v="
  const EmbedPath := "embed/"
  const Autoplay := "?autoplay=1"

  /**
   * `trailerUrl.replace('watch?v=', 'embed/') + '?autoplay=1'`: the leftmost
   * `watch?v=` (if any) becomes `embed/`, and the autoplay query is appended.
   */
  function EmbedUrl(trailer: string): (url: string)
    ensures |url| >= |Autoplay| && url[|url| - |Autoplay|..] == Autoplay
    ensures (forall j :: !OccursAt(trailer, WatchPath, j)) ==> url == trailer + Autoplay
    ensures forall i :: FirstOccurrence(trailer, WatchPath, i) ==>
      url == trailer[..i] + EmbedPath + trailer[i + |WatchPath|..] + Autoplay
  {
    ReplaceFirst(trailer, WatchPath, EmbedPath) + Autoplay
  }

  /**
   * Only the leftmost `watch?v=` is rewritten: what follows it reaches the
   * embed address untouched, so a second `watch?v=` survives.
   */
  lemma EmbedKeepsLaterText(trailer: string, i: nat)
    requires FirstOccurrence(trailer, WatchPath, i)
    ensures var url := EmbedUrl(trailer);
      && url[..i] == trailer[..i]
      && url[i..i + |EmbedPath|] == EmbedPath
      && url[i + |EmbedPath|..|url| - |Autoplay|] == trailer[i + |WatchPath|..]
  {
    var url := EmbedUrl(trailer);
    assert url == trailer[..i] + EmbedPath + trailer[i + |WatchPath|..] + Autoplay;
  }
}
