/**
 * The result filter of `search_image` (social_search.py): walk the
 * reverse-image-search provider's `visual_matches` in order, keep the items
 * whose link mentions one of five social-media domains, and stop once
 * `max_sites` entries have been collected.
 *
 * The photo upload and the HTTP request that produce the provider's reply are
 * outside the model: the reply is the input.
 */
module SocialSearch {
  import opened Wrappers
  import Text
  import opened Seqs

  /** The domains a kept link must mention, in the order the source lists them. */
  const SocialDomains: seq<string> :=
    ["facebook.com", "instagram.com", "twitter.com", "linkedin.com", "tiktok.com"]

  /** `max_sites` when the caller does not pass one. */
  const DefaultMaxSites: int := 5

  /** One element of `visual_matches`; either key may be missing. */
  datatype VisualMatch = VisualMatch(link: Option<string>, title: Option<string>)

  /** The decoded JSON reply; `visual_matches` may be missing. */
  datatype LensReply = LensReply(visualMatches: Option<seq<VisualMatch>>)

  /** One returned entry, `{"title": ..., "url": ...}`. */
  datatype Hit = Hit(title: string, url: string)

  /** `any(dom in link for dom in SOCIAL_DOMAINS)`: the link as given, not lower-cased. A social
      link is at least as long as the shortest domain, "tiktok.com". */
  predicate IsSocialLink(link: string): (b: bool)
    ensures b ==> |link| >= 10
  {
    assert forall k :: 0 <= k < |SocialDomains| ==> |SocialDomains[k]| >= 10;
    exists k :: 0 <= k < |SocialDomains| && Text.Contains(link, SocialDomains[k])
  }

  /** `item.get("link", "")`. */
  function LinkOf(item: VisualMatch): string {
    item.link.GetOr("")
  }

  /** The entry built for an item: its link (`""` when missing) as url, and its title, or that
      url when the title is missing. */
  function HitOf(item: VisualMatch): (h: Hit)
    ensures item.link.Some? ==> h.url == item.link.value
    ensures item.link.None? ==> h.url == ""
    ensures item.title.Some? ==> h.title == item.title.value
    ensures item.title.None? ==> h.title == h.url
  {
    Hit(item.title.GetOr(LinkOf(item)), LinkOf(item))
  }

  /** An item is collected when its link is a social-media link. */
  predicate Qualifies(item: VisualMatch) {
    IsSocialLink(LinkOf(item))
  }

  /** `js.get("visual_matches", [])`. */
  function ItemsOf(reply: LensReply): seq<VisualMatch> {
    reply.visualMatches.GetOr([])
  }

  /** The entries of every qualifying item, in reply order, with no cap. */
  function QualifyingHits(items: seq<VisualMatch>): (hits: seq<Hit>)
    ensures |hits| <= |items|
  {
    FilterMap(items, Qualifies, HitOf)
  }

  /** How many entries the loop collects at most: the length test runs only after an append,
      so a `max_sites` below 1 still lets the first qualifying item through. */
  function Cap(maxSites: int): (n: nat)
    ensures n >= 1 && n >= maxSites
    ensures maxSites >= 1 ==> n == maxSites
    ensures maxSites < 1 ==> n == 1
  {
    if maxSites < 1 then 1 else maxSites
  }

  /** What `search_image` returns for a reply: the first `Cap(maxSites)` qualifying entries. */
  function SearchSpec(reply: LensReply, maxSites: int): (hits: seq<Hit>)
    ensures |hits| <= Cap(maxSites)
    ensures IsPrefix(hits, QualifyingHits(ItemsOf(reply)))
    ensures |QualifyingHits(ItemsOf(reply))| <= Cap(maxSites) ==> hits == QualifyingHits(ItemsOf(reply))
    ensures |QualifyingHits(ItemsOf(reply))| >= Cap(maxSites) ==> |hits| == Cap(maxSites)
  {
    var all := QualifyingHits(ItemsOf(reply));
    if |all| <= Cap(maxSites) then all else all[..Cap(maxSites)]
  }

  /** The filter-and-cap loop of `search_image`. */
  method SearchImage(reply: LensReply, maxSites: int) returns (matches: seq<Hit>)
    ensures matches == SearchSpec(reply, maxSites)
  {
    var items := reply.visualMatches.GetOr([]);
    matches := [];
    var i := 0;
    while i < |items|
      invariant 0 <= i <= |items|
      invariant matches == QualifyingHits(items[..i])
      invariant |matches| < Cap(maxSites)
    {
      var item := items[i];
      var link := item.link.GetOr("");
      if IsSocialLink(link) {
        matches := matches + [Hit(item.title.GetOr(link), link)];
        if |matches| >= maxSites {
          assert items[..i + 1][..i] == items[..i];
          FilterMapPrefix(items, i + 1, Qualifies, HitOf);
          break;
        }
      }
      assert items[..i + 1][..i] == items[..i];
      i := i + 1;
    }
    assert i == |items| ==> items[..i] == items;
  }

  /** Every collected url mentions a social-media domain. */
  lemma {:induction false} QualifyingHitsAreSocial(items: seq<VisualMatch>, h: Hit)
    requires h in QualifyingHits(items)
    ensures IsSocialLink(h.url)
    ensures exists i :: 0 <= i < |items| && h == HitOf(items[i]) && Qualifies(items[i])
  {
    FilterMapMembership(items, Qualifies, HitOf, h);
  }

  /** An entry is collected (before the cap) exactly when some qualifying item yields it. */
  lemma QualifyingHitsMembership(items: seq<VisualMatch>, h: Hit)
    ensures h in QualifyingHits(items) <==> exists i :: 0 <= i < |items| && Qualifies(items[i]) && h == HitOf(items[i])
  {
    FilterMapMembership(items, Qualifies, HitOf, h);
  }

  /** Every returned entry has a social url and comes from one qualifying item of the reply,
      with that item's title, or its link when the title is missing. */
  lemma SearchEntriesFromItems(reply: LensReply, maxSites: int, k: int)
    requires 0 <= k < |SearchSpec(reply, maxSites)|
    ensures IsSocialLink(SearchSpec(reply, maxSites)[k].url)
    ensures exists i ::
      && 0 <= i < |ItemsOf(reply)|
      && Qualifies(ItemsOf(reply)[i])
      && SearchSpec(reply, maxSites)[k].url == LinkOf(ItemsOf(reply)[i])
      && SearchSpec(reply, maxSites)[k].title
         == (if ItemsOf(reply)[i].title.Some? then ItemsOf(reply)[i].title.value else LinkOf(ItemsOf(reply)[i]))
  {
    var h := SearchSpec(reply, maxSites)[k];
    assert h == QualifyingHits(ItemsOf(reply))[k];
    QualifyingHitsAreSocial(ItemsOf(reply), h);
  }

  /** The result keeps reply order: it is a subsequence of the entries of all items. */
  lemma SearchKeepsReplyOrder(reply: LensReply, maxSites: int)
    ensures IsSubsequence(SearchSpec(reply, maxSites), Map(ItemsOf(reply), HitOf))
  {
    var items := ItemsOf(reply);
    PrefixIsSubsequence(SearchSpec(reply, maxSites), QualifyingHits(items));
    FilterMapIsSubsequence(items, Qualifies, HitOf);
    SubsequenceTransitive(SearchSpec(reply, maxSites), QualifyingHits(items), Map(items, HitOf));
  }

  /** With `max_sites` of 0 or less, one qualifying item is enough to return exactly one entry. */
  lemma NonPositiveCapReturnsOne(reply: LensReply, maxSites: int)
    requires maxSites <= 0
    requires exists i :: 0 <= i < |ItemsOf(reply)| && Qualifies(ItemsOf(reply)[i])
    ensures |SearchSpec(reply, maxSites)| == 1
  {
    var i :| 0 <= i < |ItemsOf(reply)| && Qualifies(ItemsOf(reply)[i]);
    QualifyingHitsMembership(ItemsOf(reply), HitOf(ItemsOf(reply)[i]));
  }

  /** When no item qualifies the result is empty, whatever `max_sites` is. */
  lemma NoQualifyingItemReturnsNothing(reply: LensReply, maxSites: int)
    requires forall i :: 0 <= i < |ItemsOf(reply)| ==> !Qualifies(ItemsOf(reply)[i])
    ensures SearchSpec(reply, maxSites) == []
  {
    var all := QualifyingHits(ItemsOf(reply));
    if all != [] {
      QualifyingHitsMembership(ItemsOf(reply), all[0]);
    }
  }

  /** A reply without `visual_matches` yields no entries. */
  lemma MissingVisualMatchesReturnsNothing(maxSites: int)
    ensures SearchSpec(LensReply(None), maxSites) == []
  {
  }

  /** An item without a link is never collected: the empty link mentions no domain. */
  lemma MissingLinkNeverQualifies(title: Option<string>)
    ensures !Qualifies(VisualMatch(None, title))
  {
  }

  /** A social link is never empty. */
  lemma SocialLinkNonEmpty(link: string)
    requires IsSocialLink(link)
    ensures link != ""
  {
  }

  /** Every domain ends in ".com", so a link without a lower-case 'o' is not a social link. */
  lemma NoLowerOMeansNotSocial(link: string)
    requires forall j :: 0 <= j < |link| ==> link[j] != 'o'
    ensures !IsSocialLink(link)
  {
    if IsSocialLink(link) {
      var k :| 0 <= k < |SocialDomains| && Text.Contains(link, SocialDomains[k]);
      var dom := SocialDomains[k];
      assert dom[|dom| - 2] == 'o' by {
        assert k == 0 || k == 1 || k == 2 || k == 3 || k == 4;
      }
      Text.ContainsCharOf(link, dom, |dom| - 2);
      assert false;
    }
  }

  /** The domain test is case-sensitive: the upper-case spelling of a kept link is dropped. */
  lemma DomainTestIsCaseSensitive()
    ensures IsSocialLink("https://facebook.com/asha")
    ensures !IsSocialLink("HTTPS://FACEBOOK.COM/ASHA")
  {
    assert Text.OccursAt("https://facebook.com/asha", SocialDomains[0], 8);
    NoLowerOMeansNotSocial("HTTPS://FACEBOOK.COM/ASHA");
  }
}
