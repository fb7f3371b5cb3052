# Missing Person Finder — verified model of its core rules

Missing Person Finder is a Streamlit application. Caretakers register a
missing person with a reference photo. Anyone can later upload a photo to
find stored records whose face embedding is similar enough. Almost all of the
repository is screen code. This project models the few rules inside it that
can be stated and checked, and proves their properties in Dafny 4.11:

- **Reverse-image-search filter** (`search_image`, social_search.py). The
  provider's `visual_matches` are walked in order. Items whose link contains
  one of five social-media domains are kept, as `{title, url}` entries. A
  missing title becomes the link. The loop stops after `max_sites` entries, or
  after the first entry when `max_sites` is 0 or less, because the length test
  runs only after an append.
  Module `SocialSearch`. The loop is method `SearchImage`. It is proved equal
  to the specification function `SearchSpec`, and the lemmas beside it are
  proved about that function.
- **Registration handler** (app.py, "Register" tab). Module `Registration`
  splits it into its steps:
  - the required-field gate `all([...])`, with Python truthiness written out;
  - the best-effort geocoding of the stripped location (method
    `CaptureCoordinates`);
  - the best-effort reverse image search, which keeps the entries' urls
    (method `CollectLinks`);
  - the assembly of the record, with the links stored newline-joined (method
    `Register`).

  The search tab's display of the stored links (`DisplayedLinks`) undoes the
  join. It is proved to give the list back when no link contains a newline and
  the joined text is not empty. An empty list stores `""` and shows nothing.
  Outside those conditions it does not: `[""]` shows nothing, and `["a\nb"]`
  shows two links. Links kept from a search are never empty, so for them only
  the newline condition matters.
- **Photo-search matcher** (app.py, "Search" tab). One pass over the store's
  rows keeps those whose similarity reaches the strictness threshold. The
  order is the scan order, nothing is sorted, and the embedding is dropped.
  Module `Matcher`: method `FindMatches` is proved equal to the function
  `Matches`.
- **National-ID (Aadhaar) mask** on the match cards: `XXXX‑XXXX‑` (the
  hyphens are U+2011) plus the last four characters, or `—` (U+2014) when
  there is no number. Module `Masking`.

Support modules: `Wrappers` holds `Option`, and `Outcome` (a value, or a raised
exception with its message). `Seqs` holds `FilterMap`, meaning
`[f(x) for x in xs if keep(x)]`, and the order-preserving subsequence relation,
with lemmas proved once for both list-building loops. `Text` holds substring
containment, Python's `str.strip()`, and `"\n".join` / `str.split("\n")` with
both round trips.

External services are inputs to the model:
- the geocoder is a function parameter from the query text to a reply;
- the embedding model, the photo upload and the reverse image search are
  given as the `Outcome` of calling them on the submitted photo;
- the similarity score is an arbitrary function `score: (Q, B) -> real` of the
  query embedding and the stored blob. Every matcher property holds for any
  such function.

Notes on what the code does, which the model follows:
- The matcher appends in scan order and does not sort (app.py:202-205). The
  model proves that order.
- Only geopy's own errors are caught around the geocoder (app.py:139). Any
  other geocoder exception escapes the handler, and the model has this as
  `Aborted`.
- The national-ID number is masked only on the search-result card
  (app.py:217). The "My Cases" card shows it in full (app.py:268).
- The required-field gate only checks that a file was uploaded, not its
  content. It rejects age 0 although the age input allows 0 (app.py:116, 130).
- No ownership check appears in app.py. Mark-as-found and delete
  pass only the row id (app.py:281, 367), and only the case lists are
  filtered by user (app.py:253, 297). The store module is not available and
  is not modelled.

## Model

| member | source | states |
|---|---|---|
| SocialSearch.SearchImage | social_search.py:88-95 | the filter/cap loop returns exactly `SearchSpec`: the first `Cap(max_sites)` qualifying entries, in reply order |
| SocialSearch.SearchSpec | social_search.py:88-95 | at most `Cap(max_sites)` entries; a prefix of all qualifying entries; all of them when no more than the cap qualify; exactly the cap when at least that many do |
| SocialSearch.Cap | social_search.py:92-94 | the cap is at least one whatever `max_sites` is, because the length test runs after an append: exactly 1 when `max_sites` is below 1, `max_sites` itself otherwise |
| SocialSearch.IsSocialLink | social_search.py:91 | the case-sensitive test against the five domains of social_search.py:47-53; a link that passes it is at least as long as the shortest domain, `tiktok.com` (10 characters) |
| SocialSearch.HitOf | social_search.py:90-92 | the entry's url is the item's link, or `""` when the link is missing; its title is the item's title, or that url when the title is missing |
| SocialSearch.QualifyingHits | social_search.py:89-92 | the uncapped filter never yields more entries than there are items |
| SocialSearch.QualifyingHitsAreSocial | social_search.py:89-92 | every collected url contains a social-media domain and comes from a qualifying item |
| SocialSearch.QualifyingHitsMembership | social_search.py:89-92 | an entry is collected if and only if some qualifying item yields it |
| SocialSearch.SearchEntriesFromItems | social_search.py:90-92 | each returned entry has the url of a qualifying item, and that item's title or, when the title is missing, its link |
| SocialSearch.SearchKeepsReplyOrder | social_search.py:89-92 | the result is an order-preserving subsequence of the reply's items' entries |
| SocialSearch.NonPositiveCapReturnsOne | social_search.py:92-94 | with `max_sites <= 0` and some qualifying item, exactly one entry is returned |
| SocialSearch.NoQualifyingItemReturnsNothing | social_search.py:89-95 | when no item qualifies, the result is empty |
| SocialSearch.MissingVisualMatchesReturnsNothing | social_search.py:89 | a reply without `visual_matches` yields no entries |
| SocialSearch.MissingLinkNeverQualifies | social_search.py:90-91 | an item without a link is treated as `""` and skipped |
| SocialSearch.SocialLinkNonEmpty | social_search.py:47-53 | a link that passes the domain test is not empty |
| SocialSearch.NoLowerOMeansNotSocial | social_search.py:47-53 | every domain ends in ".com", so a link without a lower-case `o` never qualifies |
| SocialSearch.DomainTestIsCaseSensitive | social_search.py:91 | the test is case-sensitive and the link is not lower-cased: `https://facebook.com/asha` qualifies, its upper-case spelling does not |
| Text.StripLeft | app.py:136 | `lstrip` removes only leading whitespace and leaves a suffix that does not start with whitespace |
| Text.StripRight | app.py:136 | `rstrip` removes only trailing whitespace and leaves a prefix that does not end with whitespace |
| Text.Strip | app.py:136 | `strip` never lengthens the location, leaves no whitespace at either end, and gives `""` exactly when the location is all whitespace |
| Text.StripIsTrimmedSlice | app.py:136 | the geocoder query is a contiguous slice of the location, with whitespace only around it and at neither of its ends |
| Text.StripIdempotent | app.py:136 | stripping an already stripped query changes nothing |
| Text.Join | app.py:174 | `"\n".join` of no links is `""`; otherwise the text starts with the first link, followed by a newline when more links follow |
| Text.Split | app.py:242 | `split("\n")` always gives at least one piece, and no piece holds a newline |
| Text.SplitJoin | app.py:242 | splitting a newline join gives the list back, for a non-empty list in which no element holds a newline |
| Text.JoinSplit | app.py:174 | joining the pieces of a split gives the string back, for every string |
| Registration.AllIff | app.py:130 | `all([...])` holds exactly when every listed value is truthy |
| Registration.RequiredFieldsPresent | app.py:130 | registration goes on if and only if there is a photo, and name, gender, location, contact name and contact number are non-empty (not stripped), and age is non-zero |
| Registration.AgeZeroRejected | app.py:116-130 | age 0 is accepted by the age input but rejected by the gate |
| Registration.BlankLocationPasses | app.py:130-136 | any non-empty location made only of whitespace passes the gate, yet the geocoder is asked for the empty string |
| Registration.CaptureCoordinates | app.py:134-140 | both coordinates are set, from the single geocode result, or both stay absent; a geopy error leaves them absent with a warning; any other exception escapes |
| Registration.LinksFor | app.py:150-154 | the kept links are the urls of the search entries, same length and order, at most 5 (the default cap), all social links; none when the search raised |
| Registration.CollectLinks | app.py:150-156 | the step produces `LinksFor`; a raising search gives a warning with its message instead of aborting |
| Registration.DisplayedLinks | app.py:240-243 | a NULL or empty column shows nothing; otherwise the shown pieces join back to the stored text |
| Registration.StoredLinksRoundTrip | app.py:174 | storing a newline-free link list and displaying it gives the list back, unless the stored text is empty; the empty list shows nothing |
| Registration.SearchLinksRoundTrip | app.py:150-174 | the links a registration keeps, when newline-free, are displayed back unchanged |
| Registration.Register | app.py:129-178 | the gate stops a submission without its required fields; otherwise the record is saved exactly when the geocoder does not raise an uncaught exception and the embedding and upload succeed; geocoding and search failures only add warnings; the saved record copies the form, has both coordinates or neither, the uploaded photo url, and the newline-joined links |
| Matcher.Summarize | app.py:205 | the appended tuple is the scanned row minus its embedding: attaching the embedding again gives the row back, so no other field is lost or changed |
| Matcher.Matches | app.py:202-205 | there are never more matches than stored rows |
| Matcher.FindMatches | app.py:202-205 | the loop returns exactly `Matches`: the rows whose score reaches `strict`, in scan order, without the embedding |
| Matcher.MatchesMembership | app.py:202-205 | a match is produced if and only if some row with `score >= strict` carries its eight non-embedding fields |
| Matcher.ReportedIffReachesThreshold | app.py:204 | with distinct ids, a row is reported if and only if its score reaches the threshold |
| Matcher.EmptyIffNoRowReaches | app.py:202-208 | "no match" is an empty result, which happens exactly when every score is below the threshold |
| Matcher.MatchesInScanOrder | app.py:203-205 | the matches are a subsequence of the scanned rows, in scan order |
| Matcher.ThresholdMonotone | app.py:204 | if `t1 <= t2`, the matches at `t2` are a subsequence of the matches at `t1` |
| Matcher.ThreeRowExample | app.py:202-205 | rows scoring 0.5, 0.2 and 0.4 at threshold 0.33 give the first and third rows, in scan order |
| Masking.Shown | app.py:217 | `aad[-4:]` keeps four characters, or all of a shorter number |
| Masking.LastFour | app.py:217 | the shown tail is a suffix of the number, of length `min(4, len)` |
| Masking.MaskAadhaar | app.py:217 | an absent or empty number shows `—`; a present one shows the fixed prefix and then its last `min(4, len)` characters, nothing else |
| Masking.MaskRevealsOnlyLastFour | app.py:217 | two numbers with the same last four characters are shown identically |
| Masking.MaskHidesAllButLastFour | app.py:217 | any change before the last four characters is invisible in the mask |
| Masking.PresentNumberNeverDash | app.py:217 | a present number is never shown as the dash |
| Masking.TwelveDigitExample | app.py:217 | `123456789012` is shown as `XXXX‑XXXX‑9012` |

## Left out

- Streamlit screen code is not modelled: login, access codes, session state, forms, tabs, messages, CSS and the Folium maps (app.py:39-127, 186-189, 218-238, 249-391). It is presentation only.
- The store (`db` module, raw SQL, `db.add_person`, `db.all_persons`, mark-as-found, delete) is not part of this model: the `db` module's code is not available. `Register` returns the record it would store, and `FindMatches` takes the scanned rows as input. A store error during `add_person` is not modelled.
- The FOUND lifecycle and deletion are not modelled. No ownership check appears in app.py: mark-as-found and delete pass only the row id (app.py:281, 367), and only the case lists are filtered by user (app.py:253, 297). The store module is not available and is not modelled.
- `face_utils.get_embedding` and `cosine`, and `np.frombuffer`, are not modelled. They are not available and use floating point. The embedding is an `Outcome` input, and the score is an arbitrary real-valued function. NaN scores are not modelled.
- Coordinates and scores are Dafny `real`, not IEEE floats. The map display's truthiness and NaN tests on coordinates (app.py:186, 218, 375) concern float semantics and are not modelled.
- The photo upload (Cloudinary), the SerpAPI request, `raise_for_status` and JSON decoding in `search_image` (social_search.py:76-86) are network I/O. Their combined result is the `Outcome<LensReply>` input, and any failure among them is `Raised`.
- `scrape_profile_title` (social_search.py:98-106) is not modelled: it only fetches and parses HTML.
- SocialSearch.VisualMatch: a JSON `null` title or link, and non-string values, are not modelled. A key is either missing or holds a string.
- SocialSearch.LensReply: a JSON `null` or non-list `visual_matches` is not modelled. The key is either missing or holds a list. In the source, iterating such a value raises (social_search.py:89), and the registration handler turns that into a search warning (app.py:155-156). The model covers that path only as a `Raised` search outcome.
- The on-screen message texts are not modelled. Which warning is raised is modelled, as the `Warning` datatype.
- Registration.RegisterForm: the age widget's range 0-120 and the gender choices are UI constraints and are not enforced on the form record.
- The "My Cases" card shows the national-ID number unmasked (app.py:268). Masking is modelled and proved only for the search-result card.
