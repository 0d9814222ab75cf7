# Verification of Nexus

Nexus answers a question from the web: it searches, ranks the results, crawls the best pages, asks a
language model for an answer with citations, and checks each citation against the pages. This project
models the algorithms and protocols inside that pipeline in Dafny and proves what they promise, for all
inputs and all runs. `dafny verify dfyconfig.toml` checks all of it.

| file | what it models |
|---|---|
| `Wrappers.dfy`, `Strings.dfy`, `Utf8.dfy`, `Sorting.dfy`, `QueryString.dfy` | the library operations the code leans on: `str` methods, UTF-8 (section 3 of RFC 3629), the stable sort, `parse_qsl` and `urlencode` |
| `Normalize.dfy`, `Citations.dfy` | matching a quote in a normalised page and carrying the match back to byte offsets; the citation validator |
| `Envelope.dfy` | the envelope around untrusted pages: its printer and the scanner that reads it |
| `Redaction.dfy` | five ordered secret patterns, as greedy matchers and as languages |
| `Extract.dfy`, `Paragraphs.dfy` | the HTML extractor, as a stack automaton and as a meaning of element trees; the lines of the markdown it renders |
| `Canonical.dfy`, `Urls.dfy` | URL canonicalisation over `urlsplit` and `urlunsplit`; what becomes of a URL written down part by part |
| `RateLimit.dfy`, `Searxng.dfy`, `HttpLimits.dfy` | token buckets, the circuit breaker, request windows and concurrency slots, as runs with a clock |
| `Budget.dfy` | the daily LLM budget, with calls suspended between check and charge |
| `Orchestrator.dfy` | the pipeline itself: its event grammar and its fitting of documents |
| `Cache.dfy`, `SearchClient.dfy` | the versioned, expiring cache with late and lost writes; its keys, the search route and its merge |
| `Rerank.dfy` | ranking: a stable sort and a chain of greedy filters |

Code that works by changing things step by step is modelled by classes and methods with loops; each is
proved equal to a specification function on values, and the theorems are lemmas about those functions.
Code whose interleaving matters is modelled as a state machine over its steps. What is assumed of Unicode
and of the platform's libraries is a predicate on a parameter, and each such predicate is shown to be
satisfiable.

Properties that turned out not to hold of the code, each with the exact condition under which they do:

- Canonicalisation is not idempotent: it drops the brackets of IPv6 hosts. `Canonical.IdempotentIff` tells
  which answers are stable; for an IPv6 host the answer, canonicalised again, is no URL at all or an exception
  (`Canonical.IPv6AnswersAreRejected`). Search results carry canonical URLs and `rerank` canonicalises them
  again, so one such result makes the whole ranking raise (`Rerank.IPv6ResultsCannotBeRanked`).
- Duplicates use up a domain's share, since the per-domain cap comes before the near-duplicate filter. A
  domain keeps its share iff no row of it that passed the cap is then refused (`Rerank.DomainKeepsItsShareIff`).
- The 64-hour cap of the circuit breaker can be reached. It is, by a list of trips on one day, iff these and
  the engine's earlier trips that day are eight or more (`Searxng.CapAppliesIff`); it is not in runs that do
  not overlap and name an engine once (`Searxng.AtMostSixTripsADay`). With `k` searches under way together,
  a day has at most 6 + k trips (`Searxng.OverlapBound`).
- A completion can charge more than what it returns: iff a provider before the one it returns ended with a
  response, whose bookkeeping then raised (`Budget.ChargesOnlyWhatItReturnsIff`).
- Increments and `get` disagree about expiry: exactly within the lag of the last write, the time between its
  reading of the clock and its landing in the store (`Cache.IncrOutlivesGetIff`).
- Different searches can share a cache key: iff the key string can be cut into fields in another way
  (`SearchClient.CollidesIff`), which takes a `|` in the language or the country of one of them
  (`SearchClient.KeyInjective`).
- An accepted stream can keep its slot for ever: iff its generator is never started
  (`HttpLimits.AllSlotsReturnIffNoneDropped`).
- Hidden text can come out of the extractor, and visible text can get lost. A text at any place of a document
  is collected just when it has no hidden ancestor iff every outermost hidden element is shielded: closed, with
  its own entry on the stack until its end tag and alone there then (`Extract.TextsComeOutRightIff`). Tags pair
  up as the document means them iff it is guarded, which is more (`Extract.FaithfulIffGuarded`,
  `Extract.UnguardedYetExact`).
- What is hidden can still part the text around it: the end tag of a block element inside a hidden one ends a
  line. It leaves no trace iff it holds no such element (`Paragraphs.HiddenLeavesNoTraceIff`).

## Model

| member | source | states |
|---|---|---|
| Utf8.DecodeIffEncoded | nexus/citations/engine.py:60 | The strict decoder returns a text for some bytes iff the bytes are that text's encoding: one byte form per text |
| Utf8.EncodeConcat | nexus/citations/normalize.py:51-57 | Encoding is a homomorphism, which is what lets byte offsets be summed character by character |
| Sorting.StableSortProperties | nexus/citations/engine.py:73 | The sort is ordered, a permutation, and keeps the input order within every key |
| Sorting.SortedStableUnique | nexus/citations/engine.py:73 | Order and stability determine the result: any other stable sort gives the same list |
| Normalize.BuildByteOffsets | nexus/citations/normalize.py:51-57 | Entry i of the table is the number of UTF-8 bytes of the first i characters |
| Normalize.AppendOpSpans | nexus/citations/normalize.py:64-79 | One opcode contributes one span per new character: its own for `equal`, none for `delete`, the whole old range (or the next character) otherwise |
| Normalize.BuildNfcSpans | nexus/citations/normalize.py:60-84 | The spans of all opcodes in order; the length check succeeds iff there is one span per character |
| Normalize.RewriteChars | nexus/citations/normalize.py:20-36 | The collapsing, lower-casing loop computes the left-to-right rewriting of characters and spans |
| Normalize.NormalizeForMatch | nexus/citations/normalize.py:15-42 | The text, span table and byte table are those of the specification, for every text; the length check before them always succeeds |
| Normalize.SpanPerNfcChar | nexus/citations/normalize.py:60-84 | For every text and every opcode list that tiles it there is exactly one span per NFC character, so line 82 never raises |
| Normalize.NfcSpansMonotone | nexus/citations/normalize.py:60-84 | For every such list, span starts and span ends never decrease and stay in range |
| Normalize.OpSpansCover | nexus/citations/normalize.py:64-79 | What one opcode's spans point at: equal characters at themselves, a replacement at all of what it replaces, an insertion at the character it comes before |
| Normalize.NfcSpansCover | nexus/citations/normalize.py:60-84 | Every original character is inside some span, unless the diff deletes it |
| Normalize.RewriteAllMonotone | nexus/citations/normalize.py:23-36 | They still do after white-space runs are merged and lower-casing has expanded characters |
| Normalize.RewriteAllReaches | nexus/citations/normalize.py:23-36 | Up to any character, the spans reach from the first character's start to the last one's end: the span of a white-space run grows with it |
| Normalize.TablesSound | nexus/citations/normalize.py:15-42 | Both tables of any text: one in-range, monotone span per normalised character, one byte offset per character and one past the end |
| Normalize.EncodedSlice | nexus/citations/engine.py:60 | The bytes between two character boundaries are the encoding of the characters between them |
| Normalize.SliceDecodes | nexus/citations/normalize.py:45-48 | The two byte offsets of any match are the byte positions of character boundaries, in order and in range, the end at least 1, and the slice decodes to exactly those characters |
| Normalize.SquashConcat | nexus/citations/normalize.py:23-36 | Normalising is a homomorphism at every cut that does not split a white-space run |
| Normalize.NormalizedWords | nexus/citations/normalize.py:20-36 | In NFC text a word is lower-cased character by character, and the white-space run behind it becomes one blank, before the normalised rest |
| Normalize.SpansAnchor | nexus/citations/normalize.py:23-36 | In NFC text every normalised character's span brackets it: normalising up to the span's ends brackets the character, exactly if lower-casing does not expand |
| Normalize.SpansAreGapless | nexus/citations/normalize.py:23-36 | In NFC text the table covers the text up to any character without gaps |
| Normalize.SliceNormalizesToMatch | nexus/citations/normalize.py:15-48 | In an NFC document the characters a match is carried back to normalise to a text containing the match, and to the match itself if each character lower-cases to one |
| Citations.ClaimPositionIsFirst | nexus/citations/engine.py:77-93 | The claim exists iff its position is inside the answer, and the position is the first occurrence of any of the three markers |
| Citations.HasOutsideEnvelopeMatch | nexus/citations/engine.py:96-124 | Whether the normalised quote occurs in the normalised text outside all envelopes |
| Citations.ValidateOne | nexus/citations/engine.py:23-71 | One turn of the loop gives the specified verdict |
| Citations.ValidateCitations | nexus/citations/engine.py:14-74 | Told of the citations alone: the accepted ones come out by the place of their claim's first marker, then of their document, then by quote length, none before one it should follow; those that agree in all three are the accepted ones with that key, in input order. The rejections are the refused verdicts |
| Citations.VerdictAt | nexus/citations/engine.py:23-71 | Each raw citation gets exactly one verdict, and it depends on that citation alone |
| Citations.SplitKeepsAll | nexus/citations/engine.py:19-71 | Accepted and rejected together are all the verdicts, nothing lost or repeated; each is found behind exactly those of its kind that precede it in the input |
| Citations.ValidOrder | nexus/citations/engine.py:63-74 | The sort by row fields is that order of the citations: every row's key is the one its citation has |
| Citations.FirstFailingCheck | nexus/citations/engine.py:24-53 | A citation is accepted iff it passes all six checks; otherwise its reason is the first check it fails in the fixed order |
| Citations.AcceptedIsGrounded | nexus/citations/engine.py:37-62 | An accepted citation quotes its document's text at the first place the normalised quote is found, between two character positions whose byte offsets it carries, normalises to (or around) the raw quote in NFC documents, and its claim is marked in the answer |
| Citations.NoEnvelopeNoViolation | nexus/citations/engine.py:96-99 | A page that holds no envelope causes no violation |
| Citations.WrappedPageCheck | nexus/citations/engine.py:96-124 | For a page wrapped by the crawler, whether the envelope check finds a violation depends on the two tags alone, not on the page |
| Envelope.ScanOutside | nexus/citations/engine.py:101-122 | The cursor loop terminates and collects exactly the parts outside every envelope body |
| Envelope.ScanReassembles | nexus/citations/engine.py:101-122 | For any text, the outside parts woven with the skipped bodies are the text: nothing is lost or repeated |
| Envelope.BodiesHoldNoClose | nexus/citations/engine.py:115-121 | No skipped body contains a closing tag |
| Envelope.PlainPartsHoldNoOpen | nexus/citations/engine.py:103-108 | No envelope is overlooked: what the scan takes for plain text holds no open tag |
| Envelope.HtmlEscapeIsOnePass | nexus/crawl/envelope.py:7-8 | The five replacements in sequence act as one pass mapping each character to its entity |
| Envelope.QuotedInjective | nexus/crawl/envelope.py:7-10 | An escaped attribute and what follows its closing quote can be read back in one way only |
| Envelope.MarkerGone | nexus/crawl/envelope.py:9 | Replacing one marker by another leaves no occurrence of the first, not even a newly formed one |
| Envelope.ClosesOnceAtEnd | nexus/crawl/envelope.py:6-10 | For all URLs, hashes and bodies the wrapped text holds the closing tag once, at its end |
| Envelope.BodyRecoveredIff | nexus/crawl/envelope.py:9 | Undoing the rewrite recovers the body iff the body did not already contain the rewritten form |
| Envelope.OutsideOfWrapped | nexus/citations/engine.py:96-124 | On a wrapped page the scanner's parts are exactly the open tag and the close tag, even if the body contains open tags |
| Envelope.WrapDeterminesSource | nexus/crawl/envelope.py:6-10 | Equal wrapped texts have equal URLs, hashes and neutralised bodies |
| Redaction.RedactSecrets | nexus/llm/redaction.py:14-18 | The loop applies the five patterns in order; its result holds no secret of any of them, and is the text with disjoint stretches replaced by the marker and every other character kept in order, each stretch a secret of its pattern in the text as that pattern's pass finds it |
| Redaction.MatchSound | nexus/llm/redaction.py:5-11 | What the greedy matcher consumes is in the pattern's language |
| Redaction.MatchComplete | nexus/llm/redaction.py:5-11 | Wherever some prefix is in the language the matcher matches, at least as far |
| Redaction.NoMatchIff | nexus/llm/redaction.py:5-11 | The matcher finds nothing anywhere iff no substring at all is in the language |
| Redaction.SubClean | nexus/llm/redaction.py:14-18 | A substitution leaves no match of its pattern and creates none of a key pattern that had none, not even across an inserted marker |
| Redaction.UnchangedIffNoSecret | nexus/llm/redaction.py:5-18 | Redaction changes a text iff it holds a secret; its result holds none; it is idempotent |
| Redaction.RedactMasksSecrets | nexus/llm/redaction.py:14-18 | For every text, the stretches that are masked, as pieces inside pieces where a later pass masks what an earlier one left |
| Redaction.OneSecretMasked | nexus/llm/redaction.py:14-18 | A text whose secrets all lie within one of them, of the first pattern that finds any, keeps everything around it: `a + w + b` becomes `a + "[REDACTED]" + b` |
| Redaction.AnthropicNeverFires | nexus/llm/redaction.py:5-11 | The second pattern never matches after the first was applied |
| Extract.CheckHidden | nexus/crawl/extract.py:48-57 | The loop answers whether some attribute hides the element: `hidden`, `aria-hidden` that is true, or a hiding style |
| Extract.DeclaresIff | nexus/crawl/extract.py:42-45 | The matcher of one declaration finds a match at a place iff there are a property, a colon and a value there, with white space only between them, and no dot after the opacity |
| Extract.HidingStyleIff | nexus/crawl/extract.py:42-45 | A style hides iff such a declaration of one of the four stands anywhere in it |
| Extract.Extractor.constructor | nexus/crawl/extract.py:61-65 | Starts with no parts and nothing suppressed |
| Extract.Extractor.HandleStartTag | nexus/crawl/extract.py:67-79 | Takes the automaton's step for the lower-cased tag, hidden as its attributes say; depth and stack agree |
| Extract.Extractor.HandleEndTag | nexus/crawl/extract.py:81-88 | Takes the automaton's step for the lower-cased end tag; depth and stack agree |
| Extract.Extractor.HandleData | nexus/crawl/extract.py:90-95 | Takes the automaton's step for text; depth and stack agree |
| Extract.Extractor.Feed | nexus/crawl/extract.py:109-115 | Any calls of the handlers run the automaton from start to end, depth always equal to stack length |
| Extract.PartsStayTidy | nexus/crawl/extract.py:67-95 | For any event stream the parts never start with or repeat a line break, and all others are stripped and non-empty |
| Extract.GuardedRun | nexus/crawl/extract.py:67-95 | Running the events of a guarded element forest collects exactly its visible texts in order and leaves the stack as it was |
| Extract.FaithfulIffGuarded | nexus/crawl/extract.py:67-88 | Start and end tags pair up as the tree means them iff suppressed elements are closed and no closed plain element has the tag of its nearest suppressed ancestor |
| Extract.UnguardedLeaks | nexus/crawl/extract.py:81-88 | What the guard excludes: for every plain tag there is a document whose hidden text is collected |
| Extract.UnguardedYetExact | nexus/crawl/extract.py:67-95 | An unguarded document, with any texts in it, whose texts are collected exactly all the same: pairing tags is more than texts need |
| Extract.TextsComeOutRightIff | nexus/crawl/extract.py:67-95 | The exact condition for texts: at every place of a document a text is collected iff it has no hidden ancestor, iff every outermost hidden element is closed, keeps its entry on the stack until its end tag, and leaves it alone there |
| Extract.ShowsRun | nexus/crawl/extract.py:67-95 | Such a document has its own texts collected exactly, in order |
| Extract.GuardedIsShielded | nexus/crawl/extract.py:67-88 | The guard implies that condition |
| Extract.MarkdownKeepsWords | nexus/crawl/extract.py:102-106 | Rendering changes white space only: every word of every part, in order |
| Extract.MarkdownShowsVisibleText | nexus/crawl/extract.py:48-106 | End to end, the markdown of a shielded document has exactly the words of its visible texts, in order, and nothing stays suppressed |
| Paragraphs.MarkdownParagraphs | nexus/crawl/extract.py:102-106 | Split at empty lines, the markdown is exactly one paragraph for each stretch of words between two line breaks, its words joined by single blanks, empty ones left out |
| Paragraphs.FlowCollected | nexus/crawl/extract.py:67-95 | In a guarded document the extractor collects its visible texts and a break for every block element: one that is visible where it starts and ends, one inside a hidden element where it ends |
| Paragraphs.DocumentParagraphs | nexus/crawl/extract.py:67-106 | End to end, the paragraphs of a guarded document's markdown are the lines of that reading |
| Paragraphs.WordOnItsLine | nexus/crawl/extract.py:102-106 | Every word stands on the line whose number is the number of breaks before it, behind the words since the last of them |
| Paragraphs.ShareALineIff | nexus/crawl/extract.py:67-106 | Two visible texts start on one line iff nothing between them ends one: no start or end of a block element, no line break in a text |
| Paragraphs.HiddenLeavesNoTraceIff | nexus/crawl/extract.py:81-88 | A hidden element's contents leave no trace iff they hold no closed block element that is not hidden itself |
| QueryString.UnquoteQuoted | nexus/search/canonical.py:50-54 | Percent-decoding undoes percent-encoding, for every text |
| QueryString.QuoteKeepsPlain | nexus/search/canonical.py:54 | Quoting leaves letters, digits and `_.-~` alone and turns blanks into plus signs |
| QueryString.EscapeReadsByte | nexus/search/canonical.py:50 | An escaped byte is read in either case of its hexadecimal digits |
| QueryString.ParseEncoded | nexus/search/canonical.py:48-54 | `parse_qsl` undoes `urlencode`, for every list of parameters, blank ones included |
| QueryString.SortIff | nexus/search/canonical.py:53 | Sorted parameter lists are equal iff they hold the same parameters with the same multiplicity |
| Canonical.CollapseSlashes | nexus/search/canonical.py:43-44 | The replacement loop terminates and equals one pass that keeps one slash of each run |
| Canonical.Canonicalize | nexus/search/canonical.py:27-56 | The imperative code computes the specified answer, raising in the same cases |
| Canonical.CollapseReplaced | nexus/search/canonical.py:43-44 | One round of replacement does not change the collapsed path |
| Canonical.NormPathIsSegments | nexus/search/canonical.py:42-46 | The canonical path is its non-empty segments joined by single slashes, `/` if there are none, and keeps the segments |
| Canonical.SplitPrinted | nexus/search/canonical.py:28-56 | `urlsplit` undoes `urlunsplit` on clean parts: a printed URL is cut where it was joined |
| Canonical.SplitWritten | nexus/search/canonical.py:28-31 | A URL written with any spelling of its scheme, any netloc, path and query is cut where these were put together |
| Canonical.PartsAreClean | nexus/search/canonical.py:28 | Whatever the URL, its netloc, path and query are free of the delimiters that end them: no fragment is left in any of them |
| Canonical.KeyIsNormal | nexus/search/canonical.py:27-56 | For any URL, the canonical path and parameters are already in canonical form, the host is lower-cased and clean, the port not the default |
| Canonical.ReKey | nexus/search/canonical.py:27-56 | Canonicalising a printed URL keeps everything but the netloc, which alone decides the outcome |
| Canonical.IdempotentIff | nexus/search/canonical.py:27-56 | Canonicalising again changes nothing iff the printed netloc has no brackets and either no colon or one colon before a canonical, non-default port |
| Canonical.PrintedKey | nexus/search/canonical.py:27-56 | Reading back a canonical URL whose host is no bracketed address gives the same scheme, host, port, path and parameters |
| Canonical.Idempotent | nexus/search/canonical.py:27-56 | Hence canonicalisation is idempotent for every such host |
| Canonical.IPv6AnswersAreRejected | nexus/search/canonical.py:33-40 | For a host with two colons or more, the answer canonicalised again is the empty string or raises, never itself |
| Canonical.PartsReadBack | nexus/search/canonical.py:56 | A printed URL determines scheme, netloc, path and query |
| Canonical.PrintIff | nexus/search/canonical.py:27-56 | Keys of any two URLs print the same iff they have the same scheme, path and parameters and print the same netloc |
| Canonical.PlainNetlocIff | nexus/search/canonical.py:33-40 | Outside bracketed addresses, the same printed netloc is the same host and the same port |
| Canonical.CanonicalIff | nexus/search/canonical.py:20-56 | Two URLs get one answer iff what `urlsplit` reads of them agrees on scheme, printed host and port, non-empty path segments and multiset of wanted parameters, for every host |
| Urls.FragmentDropped | nexus/search/canonical.py:28-56 | For every text without `#` and every fragment, the URL with it gets the answer of the URL without it |
| Urls.LineBreaksIgnored | nexus/search/canonical.py:28 | Tabs and line breaks make no difference, wherever in a URL they stand |
| Urls.SchemeCaseIgnored | nexus/search/canonical.py:29-32 | Nor does the letter case of the scheme, of any URL |
| Urls.ParametersInOrder | nexus/search/canonical.py:48-53 | A canonical URL lists its parameters by name, then by value, in code point order |
| Urls.AddedParameterIff | nexus/search/canonical.py:21-24 | Of any URL with a query: one more parameter makes no difference iff it is a tracking one, the ten names and two prefixes spelled out, in any letter case |
| Urls.KeyOfWritten | nexus/search/canonical.py:27-56 | Reading a URL written down as scheme, user, host, port, path, parameters and fragment gives these parts in canonical form |
| Urls.BracketedRead | nexus/search/canonical.py:33-37 | A bracketed address and its port are read out of their brackets |
| Urls.SamePageIff | nexus/search/canonical.py:27-56 | Two URLs so written get one answer iff they agree on scheme and host up to case, on the port unless it is 0 or the default, on the path up to slashes, and on how often each parameter occurs that does not track; users, fragments and the order of parameters make no difference |
| RateLimit.TokenBucket.constructor | nexus/crawl/rate_limit.py:29-33 | A new bucket is full |
| RateLimit.TokenBucket.TryAcquire | nexus/crawl/rate_limit.py:35-42 | Grants iff the refilled level is at least one token, and leaves the bucket as specified |
| RateLimit.PerDomainRateLimiter.constructor | nexus/crawl/rate_limit.py:49-53 | Starts with no buckets |
| RateLimit.PerDomainRateLimiter.TryAcquire | nexus/crawl/rate_limit.py:55-64 | Answers from the bucket of the URL's registrable domain, full if new, and changes no other; changes nothing if `urlsplit` raises |
| RateLimit.SubdomainsShareABucket | nexus/crawl/rate_limit.py:20-25 | A host of two labels or more and every host below it are counted for one domain |
| RateLimit.RefillTwice | nexus/crawl/rate_limit.py:37-38 | The lazy refill agrees with a continuously refilled bucket: stopping on the way changes no later level |
| RateLimit.RefusedCallLeavesNoTrace | nexus/crawl/rate_limit.py:35-42 | Without a refused call, every later call of any run is answered the same |
| RateLimit.GrantedIffEveryWindowHasRoom | nexus/crawl/rate_limit.py:35-42 | In any run a call is granted iff the burst is at least one and no window of earlier grants, with this one, exceeds burst + rate * length |
| RateLimit.WindowBound | nexus/crawl/rate_limit.py:35-42 | From any state, the grants of any interval are at most burst + rate * its length |
| RateLimit.DomainsAreIndependent | nexus/crawl/rate_limit.py:55-64 | In any run, a domain is answered as a bucket of its own, full at its first call, answers that domain's calls alone |
| Searxng.CircuitBreaker.constructor | nexus/search/searxng.py:44-47 | Starts with no trips |
| Searxng.CircuitBreaker.Open | nexus/search/searxng.py:49-50 | Open iff the clock is before the end of the cool-down |
| Searxng.CircuitBreaker.RecordTrip | nexus/search/searxng.py:57-69 | The new breaker state: the day's count restarts on a new day, and grows; the cool-down doubles up to the cap |
| Searxng.RunSearch | nexus/search/searxng.py:127-150 | Asks for the closed engines, in order, and trips those the answer gives cause to |
| Searxng.ApplyTrips | nexus/search/searxng.py:161-203 | Trips every requested engine on 429, the flagged ones among them on a payload, none otherwise |
| Searxng.LogFollowsState | nexus/search/searxng.py:192-203 | The runs the bounds are about, which also log every trip, move the breaker exactly as `ApplyTrips` does |
| Searxng.DistinctNamesTripOnce | nexus/search/searxng.py:192-203 | Distinct engines and responses that name none twice suffice for no search to trip an engine twice |
| Searxng.TripStaysSpaced | nexus/search/searxng.py:57-65 | An engine that was closed when asked about trips for the sixth time that day at most, since its earlier cool-downs had to pass |
| Searxng.AtMostSixTripsADay | nexus/search/searxng.py:49-69 | In any run of searches that do not overlap and name no engine twice, at most 6 trips per engine and UTC day, cool-downs of at most 16 hours, and never the cap |
| Searxng.OpenIffLastTrip | nexus/search/searxng.py:49-65 | After any run of searches an engine is open iff its last trip was less than half an hour ago, doubled for each earlier trip that day, 64 hours at most: it closes again on time |
| Searxng.TripsAreNumbered | nexus/search/searxng.py:57-66 | Where searches do not overlap, a trip's number is how many the engine had that day before it |
| Searxng.CapReachedIff | nexus/search/searxng.py:63 | The cap applies from the eighth trip of a day on, and only then |
| Searxng.TripsAdd | nexus/search/searxng.py:57-65 | From any state, each mention of an engine in a list of trips on one day is one more trip of it that day |
| Searxng.CapAppliesIff | nexus/search/searxng.py:57-65 | From any state with at most 7 trips of an engine that day, some further trip in any list applies the cap iff those and its mentions are 8 or more together |
| Searxng.RepeatedNamesReachTheCap | nexus/search/searxng.py:192-203 | One response naming an engine eight times reaches the cap from a fresh breaker |
| Searxng.OverlapBound | nexus/search/searxng.py:127-203 | In any run, overlapping or not, in which at most k searches that found the engine closed are under way at once and each trips it at most once, it trips at most 6 + k times a UTC day |
| Searxng.OverlappingSearchesTripAgain | nexus/search/searxng.py:127-203 | For every k, k searches under way together trip an engine k times, all but the first during its cool-down |
| Searxng.RequestsOnlyClosed | nexus/search/searxng.py:127-142 | Every requested engine is configured and was closed when the engines were chosen |
| Searxng.RequestedIff | nexus/search/searxng.py:124-142 | And every such engine is requested |
| Searxng.CaptchaIff | nexus/search/searxng.py:37 | The reasons that count, spelled out |
| Searxng.TrippedIff | nexus/search/searxng.py:161-203 | A search trips an engine iff it requested it and got 429, or a payload that gives such a reason for it |
| Searxng.TokenBucket.constructor | nexus/search/searxng.py:75-80 | Starts with one token |
| Searxng.TokenBucket.Acquire | nexus/search/searxng.py:82-93 | How long the call asks to sleep, when it is let through, and the bucket afterwards |
| Searxng.GrantsAreSpaced | nexus/search/searxng.py:82-93 | In any run successive grants are at least 1 / rate apart, sleeping or not |
| Searxng.WaitsNoLonger | nexus/search/searxng.py:82-93 | No call asks to wait longer than until 1 / rate after the grant before it, and none that comes later waits at all |
| HttpLimits.RateLimiter.constructor | nexus/http/limits.py:8-14 | Starts with empty counters |
| HttpLimits.RateLimiter.ClearExpired | nexus/http/limits.py:17-23 | Clears each counter whose 60 seconds are over |
| HttpLimits.RateLimiter.Allow | nexus/http/limits.py:16-32 | Allows iff both counts are below their limits after clearing, and the new counters, inserted zeros included |
| HttpLimits.RateLimiter.AcquireConcurrency | nexus/http/limits.py:34-38 | Acquires iff the token's in-flight count is below the limit, and the new table |
| HttpLimits.RateLimiter.ReleaseConcurrency | nexus/http/limits.py:40-45 | The new table: one less, or the key removed |
| HttpLimits.AtMostTwiceTheLimit | nexus/http/limits.py:16-32 | In any run with a monotone clock, any half-open 60 seconds admit at most twice the limit per token and per address |
| HttpLimits.AllowedIffWindowsHaveRoom | nexus/http/limits.py:16-32 | In any run of a new limiter a call is allowed iff fewer than the limit were allowed for its token since the token window started, and for its address since the address window did |
| HttpLimits.TwiceTheLimitIsReached | nexus/http/limits.py:16-32 | The bound is attained for every limit |
| HttpLimits.InflightCountsHolders | nexus/http/app.py:93-153 | Over all interleavings of both handlers, a token's in-flight count is the number of its requests that hold a slot, and never exceeds the limit |
| HttpLimits.NoEmptyEntries | nexus/http/limits.py:40-45 | With a positive limit the table has an entry for exactly the tokens that hold a slot: none is left behind at zero |
| HttpLimits.RefusedIffFull | nexus/http/app.py:93-136 | A request is refused iff the limit's worth of slots is held by others |
| HttpLimits.AllSlotsReturnIffNoneDropped | nexus/http/app.py:93-153 | When no handler is at work any more, every count is zero iff no accepted stream was dropped before its generator started |
| Budget.DailyBudgetStore.constructor | nexus/llm/budget.py:9-12 | An empty table |
| Budget.DailyBudgetStore.GetSpend | nexus/llm/budget.py:14-20 | The row's spend, 0 without a row |
| Budget.DailyBudgetStore.AddSpend | nexus/llm/budget.py:22-38 | Inserts or adds, changes no other row, returns the new total |
| Budget.Complete | nexus/llm/client.py:73-166 | The three checks in order leave the table alone; otherwise table and outcome are those of trying the providers in turn |
| Budget.FinalCostIff | nexus/llm/client.py:98-119 | What an attempt charges is the cost of its last response: the first, if it needs no repair, else the repaired one |
| Budget.ChargesWhatItReturns | nexus/llm/client.py:98-166 | If bookkeeping does not raise, a completion charges exactly the cost of the response it returns, after repair, and nothing if it finds none |
| Budget.ChargesEveryResponse | nexus/llm/client.py:98-166 | Whatever the bookkeeping does, every response that any tried provider ends with is charged to its date and to the role, and nothing else |
| Budget.ChargesOnlyWhatItReturnsIff | nexus/llm/client.py:98-166 | With positive costs, exactly the returned response is charged iff no earlier provider ended with one; and nothing is charged by a completion that fails iff no provider did |
| Budget.RaisingBookkeepingChargesTwice | nexus/llm/client.py:119-161 | Two providers suffice for the exception, from any table: the first one's cost stays charged beside the second one's |
| Budget.TableIsSumOfCharges | nexus/llm/budget.py:22-38 | In any interleaving every row is the sum of the costs charged to its date and role |
| Budget.AloneIsComplete | nexus/llm/client.py:89-166 | The interleaved steps of a completion that runs alone leave the table that `complete` leaves |
| Budget.OvershootBound | nexus/llm/client.py:89-161 | With at most k charges of a role ever outstanding, every day's spend stays below budget + k * maxCost, across midnight too, raising bookkeeping included |
| Budget.OvershootBoundByCalls | nexus/llm/client.py:89-161 | The same with at most k calls between check and charge, when bookkeeping never raises |
| Budget.NoBudgetNoCharge | nexus/llm/client.py:271-274 | With no budget, no call gets past the check and nothing is charged |
| Budget.OvershootIsReached | nexus/llm/client.py:89-161 | The bound is tight: from any spend below the budget, k calls can add k full costs |
| Orchestrator.FitMessages | nexus/orchestrator/service.py:384-406 | The popping loop returns the longest prefix of documents that fits, else the first one cut to a half, else to a quarter, else raises |
| Orchestrator.NothingMoreFits | nexus/orchestrator/service.py:384-406 | What the model is asked with fits and no more of the pages would: more pages do not fit, the first is cut only if it does not fit whole, to a quarter only if a half does not |
| Orchestrator.OkDocsConcat | nexus/orchestrator/service.py:168 | The pages that count are those that are ok, all of them, in order |
| Orchestrator.Search | nexus/orchestrator/service.py:48-162 | The whole run spells the stages, raises or not, as its collaborators' answers determine, keeps the record rule, and reports what they answered: the pages that are ok, in order, and at the end each failure with its own reason and whether to retry, or the counts, cost and flags of the model's reply to the texts that fit |
| Orchestrator.SearchCrawled | nexus/orchestrator/service.py:162-211 | The same from the crawled pages on: one `page_ready` for each page that is ok; without any, the empty ungrounded answer |
| Orchestrator.Synthesize | nexus/orchestrator/service.py:211-373 | The same from the model call on: the last event has the reply's valid and rejected counts, its cost, the number of pages, degraded iff one of the four flags is set, ungrounded iff nothing is valid; one matching record |
| Orchestrator.GrammarIsExact | nexus/orchestrator/service.py:48-373 | The complete event sequences of runs that do not raise are exactly the grammar's words with at most `crawl_pages_max` pages, every one of them reachable |
| Orchestrator.PrefixesAreViable | nexus/orchestrator/service.py:48-373 | Whatever has been seen of any run, raising or not, the grammar's automaton is not stuck |
| Orchestrator.TerminalIsLast | nexus/orchestrator/service.py:48-373 | Nothing follows an answer or an error, so no sequence holds two |
| Cache.DiskCacheBackend.constructor | nexus/cache/diskcache_backend.py:60-62 | Keeps the version, the default expiry and the store |
| Cache.DiskCacheBackend.Get | nexus/cache/diskcache_backend.py:104-123 | The stored value, unless absent, foreign or expired in the store at the lookup, or of another version, or expired in the envelope at the later check |
| Cache.DiskCacheBackend.Set | nexus/cache/diskcache_backend.py:125-140 | The write handed to the thread: version, value, and an expiry counted from now |
| Cache.DiskCacheBackend.SyncSet | nexus/cache/diskcache_backend.py:191-193 | Stores the envelope under its key, with the store's own expiry counted from when it lands |
| Cache.DiskCacheBackend.Delete | nexus/cache/diskcache_backend.py:195-197 | Removes the key alone |
| Cache.DiskCacheBackend.SyncIncr | nexus/cache/diskcache_backend.py:199-213 | One transaction with three readings of the clock: the sum and the new entry, or no change if the stored value is not a number |
| Cache.GetShowsLastWrite | nexus/cache/diskcache_backend.py:104-150 | After any run, with writes that landed late or never, `get` returns a value iff the last thing that happened to the key in the store is a write of that value, of this version, not yet expired |
| Cache.IncrOutlivesGetIff | nexus/cache/diskcache_backend.py:104-213 | After any run, an increment counts on from an entry that `get` treats as expired iff the last thing that happened to the key is a write of this version, and its envelope expired less than the write's lag ago |
| Cache.HitWasWritten | nexus/cache/diskcache_backend.py:104-150 | A hit is a value some `set` or `incr` issued for this key at this version with an expiry in the future |
| Cache.IncrReturnsSum | nexus/cache/diskcache_backend.py:164-213 | On a key never `set`, an increment never raises and returns the sum of the increments since the last one that found the entry absent, expired in the store, or of another version |
| Cache.CounterHoldsSum | nexus/cache/diskcache_backend.py:199-213 | And whatever the store holds for such a key is that sum |
| Cache.IncrIgnoresEnvelopeExpiry | nexus/cache/diskcache_backend.py:199-213 | That happens: for any gap between reading the clock and writing, the next increment can |
| SearchClient.KeyInjective | nexus/cache/keys.py:18-32 | If language and country hold no separator, key strings are equal iff the requests are the same up to `None` and the empty string, whatever the queries hold |
| SearchClient.CollidesIff | nexus/cache/keys.py:18-32 | A request shares its key string with a different one iff the string can be cut in another way: some freshness and count have their fields, and the country its own, at other places in it |
| SearchClient.OtherCutsAreNotPlain | nexus/cache/keys.py:18-32 | Every other cut of a plain request's key string reads a separator into the language or the country |
| SearchClient.CountryCanCollide | nexus/cache/keys.py:31 | For every query, freshness, count and language there is a country with a separator whose request shares its key string with a different query |
| SearchClient.LangCanCollide | nexus/cache/keys.py:31 | And likewise a language with a separator |
| SearchClient.MergeAppendsTheNew | nexus/search/client.py:126-141 | The merge keeps Brave's results as a prefix and appends the new ones in order, renumbered from there, unchanged otherwise |
| SearchClient.NewAtIff | nexus/search/client.py:129-134 | A SearXNG result is appended iff neither Brave nor an earlier SearXNG result has its URL |
| SearchClient.MergeKeepsOrder | nexus/search/client.py:126-134 | Distinct URLs and contiguous ranks are preserved, and hold afterwards only if they held of Brave's list |
| SearchClient.MergedHolds | nexus/search/client.py:126-134 | The merged list has exactly the URLs of both lists |
| SearchClient.AugmentWithSearxng | nexus/search/client.py:116-141 | The loop with its `seen` set and rank counter computes the merge; without an answer Brave's stands |
| SearchClient.Route | nexus/search/client.py:83-114 | The route's answer, stamped, or none if it raises |
| SearchClient.RouteProperties | nexus/search/client.py:83-114 | It fails iff neither provider answers. With three results or more, or without SearXNG's answer, Brave's is the answer; with fewer, exactly SearXNG's results with other URLs follow, numbered on; without Brave's answer, SearXNG's is |
| SearchClient.Search | nexus/search/client.py:62-81 | The answer and the write are the specified ones: a hit is answered from the cache and writes nothing; a miss is answered live and hands the uncapped response to the cache |
| SearchClient.IssuedBySearch | nexus/search/client.py:78-81 | In any such run, every write of this version comes from a search that missed and was answered live |
| SearchClient.CachedAnswerWasLive | nexus/search/client.py:62-81 | In any run of searches and of whatever else happens to the cache, a hit repeats the live route's response to an earlier search of the run that missed, for the same request: its first `max_results` results, or all |
| Rerank.DropRepeatedUrls | nexus/rerank/__init__.py:37-44 | Keeps the first row of each canonical URL; raises iff some row's URL makes `canonicalize` raise |
| Rerank.ApplyPerDomainCap | nexus/rerank/diversity.py:13-24 | Keeps a row iff fewer than `cap` rows of its domain were kept before; nothing for a cap below 1 |
| Rerank.AnyNear | nexus/rerank/dedup.py:32 | Whether some text seen before is at least 0.85 similar |
| Rerank.NearIff | nexus/rerank/dedup.py:16-24 | Two texts are near iff their Jaccard similarity is at least 0.85, or both have no words |
| Rerank.TextOfIs | nexus/rerank/dedup.py:31 | The text compared is the title and the snippet on two lines |
| Rerank.DropNearDuplicates | nexus/rerank/dedup.py:27-36 | Keeps a row iff its text is unlike that of every row kept before |
| Rerank.AssignRanks | nexus/rerank/__init__.py:50-52 | Row i gets rank i and is otherwise unchanged |
| Rerank.Rerank | nexus/rerank/__init__.py:20-52 | The chain as specified; raises iff a score is out of range or a URL cannot be canonicalised; nothing without candidates or for `top_k` <= 0 |
| Rerank.GreedyKeepsExactly | nexus/rerank/__init__.py:37-47 | Each filter stage keeps a subsequence and drops a row iff it is refused beside rows kept earlier, all of which are in the result |
| Rerank.RepeatedIff | nexus/rerank/__init__.py:37-44 | A row is dropped as a repetition iff a row before it, kept or not, has its canonical URL |
| Rerank.DroppedIff | nexus/rerank/__init__.py:46-47 | A row is dropped by the cap iff its domain has its share among those kept before, and as a near-duplicate iff it is near to one of them |
| Rerank.GreedyIdempotent | nexus/rerank/__init__.py:37-47 | Filtering a second time drops nothing |
| Rerank.FilteredProperties | nexus/rerank/__init__.py:37-47 | The three stages together: a subsequence with distinct URLs, within the cap, pairwise unlike; no stage undoes another's property |
| Rerank.OrderIsBestFirst | nexus/rerank/__init__.py:25-35 | All candidates that were scored, each with its own score, higher scores first and equal ones in the order of the candidates |
| Rerank.RerankProperties | nexus/rerank/__init__.py:20-52 | The ranking lists candidates with their scores, higher ones first, ties as they came; `top_k` rows, or as many as the filters leave, numbered from 0, with distinct canonical URLs, at most `cap` rows per domain and no near-duplicates |
| Rerank.DuplicatesUseUpTheCap | nexus/rerank/__init__.py:46-47 | Of three pages of one domain, the second a copy of the first, only the first survives a cap of two, whatever the third is like |
| Rerank.CapGivesEachItsShare | nexus/rerank/diversity.py:13-24 | The cap leaves every domain the smaller of the cap and what it has |
| Rerank.DomainKeepsItsShareIff | nexus/rerank/__init__.py:46-47 | A domain ends with the smaller of the cap and its distinct URLs iff no row of it that passed the cap is refused as a near-duplicate of a row kept before it |
| Rerank.IPv6ResultsCannotBeRanked | nexus/rerank/__init__.py:39-40 | With the real canonicaliser, one scored candidate whose URL is the canonical form of an IPv6 URL (not starting with a colon) makes the whole ranking raise |

## Left out

- Normalize.SliceNormalizesToMatch: says nothing of documents that are not in NFC, since a diff between a text and its NFC form need not align meanings; for those Normalize.TablesSound and Normalize.SliceDecodes still hold.
- Canonical.Split: leaves out the check of `urlsplit` that rejects hosts whose NFKC form contains a delimiter; the check of bracketed hosts, which differs between Python versions, is a parameter.
- SearchClient.CachedAnswerWasLive: takes the truncated SHA-256 not to confuse the requests of the run, and JSON to round-trip; both are parameters.
- Searxng.OverlapBound: sees one engine at a time; for searches that do not overlap the bound of Searxng.AtMostSixTripsADay is smaller by one.
- Rerank.Rerank: scores, domains and word tokens are parameters, and so is the canonical URL, except in Rerank.IPv6ResultsCannotBeRanked; rows are values, so the in-place assignment of ranks is modelled on a list of rows of its own.
- Paragraphs.DocumentParagraphs: is about guarded documents; of others, Paragraphs.MarkdownParagraphs tells the paragraphs from the parts.
- Urls.SamePageIff: is about hosts that are no bracketed addresses; Canonical.CanonicalIff is about all.
- Extract.Extractor.Feed: tokenising HTML into handler calls is the parser's, and not modelled.
- Budget.OvershootBound: token counting, provider probing and the wait for a reply appear only as providers that fail or callers that give up.
- Cache.IncrReturnsSum: keys that are both `set` and incremented are not covered; no caller has any.
- Floating point: times, tokens, rates and costs are reals, the 0.85 threshold is compared in integers, which agrees with the division for any set that fits in memory.
- Unicode tables: NFC, lower-casing, the diff's choice of opcodes and replacement decoding are parameters with the assumptions stated in `Unicode.Valid` and `Lib.Valid`; lone surrogates, on which the encoder raises, are not characters here.
- The envelope built by hand for truncated documents (nexus/orchestrator/service.py:395-401) does not go through the wrapper, and none of the envelope theorems is about it.
- Exceptions that leave the orchestrator are one outcome, without their kinds; of the payloads of events, texts, latencies, token counts and the search results themselves are not modelled, and the citations are counts.
- `stream_complete`, whose provider switches after chunks were sent give it no clean contract.
- Network, DNS, HTTP frameworks, SQLite and diskcache internals: their answers are inputs or choices of a step.
- Brave's retry loop, robots evaluation, redirects, the lexical scorer, MCP truncation, the self-test, configuration, logging and telemetry, which would only add easy members.
