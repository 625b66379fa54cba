/** Release-tag selection (`get_tags`): the listing printed by
    `git tag --sort v:refname` is split on whitespace and only the newest
    `N_RELEASES` tags are kept, oldest first. */
module Tags {
  import opened Tokens

  type Tag = string

  /** How many releases are plotted at most. */
  const N_RELEASES: nat := 52

  /** Printed before the run stops when there is nothing to plot. */
  const NO_RELEASES_MESSAGE: string := "No releases found!"

  /** Either the tags to measure, or the run stops with an exit status. */
  datatype TagSelection =
    | Releases(tags: seq<Tag>)
    | Stop(status: int, message: string)

  function Min(a: nat, b: nat): nat { if a <= b then a else b }

  /** `tokens[-N_RELEASES:]`: the last `N_RELEASES` tokens, or all of them
      when there are fewer. */
  function Newest(tokens: seq<Tag>): (r: seq<Tag>)
    ensures |r| == Min(N_RELEASES, |tokens|)
    ensures r == tokens[|tokens| - |r|..]
  {
    if |tokens| <= N_RELEASES then tokens else tokens[|tokens| - N_RELEASES..]
  }

  function GetTags(listing: string): (r: TagSelection)
    ensures r.Stop? <==> AllSpace(listing)
    ensures r.Stop? <==> Split(listing) == []
    ensures r.Stop? ==> r.status == 0 && r.message == NO_RELEASES_MESSAGE
    ensures r.Releases? ==>
      var tokens := Split(listing);
      1 <= |r.tags| <= N_RELEASES &&
      |r.tags| == Min(N_RELEASES, |tokens|) &&
      (forall i :: 0 <= i < |r.tags| ==>
         r.tags[i] == tokens[|tokens| - |r.tags| + i] && IsToken(r.tags[i]))
  {
    SplitEmpty(listing);
    var tags := Newest(Split(listing));
    if |tags| < 1 then Stop(0, NO_RELEASES_MESSAGE) else Releases(tags)
  }

  /** For a listing as git prints it, one tag per line in version order, the
      selection is the newest `N_RELEASES` of those tags in the same order,
      and an empty listing stops the run with status 0. */
  lemma {:induction false} GetTagsOfListing(ts: seq<Tag>)
    requires forall i :: 0 <= i < |ts| ==> IsToken(ts[i])
    ensures ts == [] ==> GetTags(Lines(ts)) == Stop(0, NO_RELEASES_MESSAGE)
    ensures ts != [] ==> GetTags(Lines(ts)) == Releases(Newest(ts))
  {
    SplitLines(ts);
    SplitEmpty(Lines(ts));
  }
}
