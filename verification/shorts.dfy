/** The short-clip filter, in its two copies (YouTube fetcher and webhook).
    The duration arrives already parsed: `None` stands for a missing or
    unparsable ISO 8601 duration, which makes either filter raise and answer
    `False`.  A missing title is `None` likewise. */
module Shorts {
  import opened Wrappers
  import opened Text

  const ShortTags: seq<string> := ["#shorts", "#short", "#ytshorts"]

  /** Clips of at most this many seconds are shorts. */
  const ShortLimit := 60

  /** `is_short` of the YouTube fetcher: a duration test, then a hashtag test
      on the title; any failure answers `false`. */
  function FetcherIsShort(seconds: Option<int>, title: Option<string>): (r: bool)
    ensures seconds.None? ==> !r
    ensures seconds.Some? && seconds.value <= ShortLimit ==> r
  {
    match seconds
    case None => false
    case Some(d) =>
      if d <= ShortLimit then true
      else
        match title
        case None => false
        case Some(t) => if ContainsAny(Lower(t), ShortTags) then true else false
  }

  /** `is_short` of the webhook, written as one boolean expression. */
  function WebhookIsShort(seconds: Option<int>, title: Option<string>): (r: bool)
    ensures seconds.None? ==> !r
    ensures seconds.Some? && seconds.value <= ShortLimit ==> r
  {
    seconds.Some? && (seconds.value <= ShortLimit || (title.Some? && ContainsAny(Lower(title.value), ShortTags)))
  }

  /** The two copies decide alike on every input. */
  lemma IsShortCopiesAgree(seconds: Option<int>, title: Option<string>)
    ensures FetcherIsShort(seconds, title) == WebhookIsShort(seconds, title)
  {
  }

  /** A clip is short exactly when its duration parsed and is at most a
      minute, or its lower-cased title holds one of the hashtags. */
  lemma IsShortSpec(seconds: Option<int>, title: Option<string>)
    ensures FetcherIsShort(seconds, title) <==>
      seconds.Some? &&
      (seconds.value <= 60 ||
       (title.Some? && exists i :: 0 <= i < |ShortTags| && Contains(Lower(title.value), ShortTags[i])))
  {
    if title.Some? {
      ContainsAnyIff(Lower(title.value), ShortTags);
    }
  }

  /** `#shorts` is redundant in the tag list: every title holding it holds `#short`. */
  lemma ShortsTagRedundant(t: string)
    ensures ContainsAny(t, ShortTags) <==> Contains(t, "#short") || Contains(t, "#ytshorts")
  {
    ContainsAnyIff(t, ShortTags);
    if Contains(t, "#shorts") {
      ContainsAt("#shorts", "#short", 0);
      ContainsTrans(t, "#shorts", "#short");
    }
    assert ShortTags[1] == "#short" && ShortTags[2] == "#ytshorts";
  }

  /** Appending text to a title never turns a short into a non-short. */
  lemma ShortStableUnderTitleExtension(seconds: Option<int>, t: string, extra: string)
    requires FetcherIsShort(seconds, Some(t))
    ensures FetcherIsShort(seconds, Some(t + extra))
  {
    if seconds.value > ShortLimit {
      LowerConcat(t, extra);
      ContainsAnyInfix("", Lower(t), Lower(extra), ShortTags);
      assert "" + Lower(t) + Lower(extra) == Lower(t + extra);
    }
  }
}
