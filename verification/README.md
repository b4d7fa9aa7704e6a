# Verified model of kube-rbac-proxy-rust

This project models the decision-making of the proxy in Dafny 4.11 and proves what that
decision-making is meant to guarantee. `dafny verify dfyconfig.toml` checks all of it.

The model follows the program's own structure:

- **Text, Selections, PathCleaning, PercentEncoding, EndpointMatching**: the endpoint matcher. The path
  cleaner is a stack machine. It is characterised as the unique normal form of a small
  rewriting system on path parts. The matcher's walk over two segment lists is proved against
  a position-by-position statement of when it succeeds and what it captures.
- **Templates**: the template expander, a chain of leftmost, non-overlapping replacements, part
  of it in the order in which a hash map happens to iterate. When one of the two braces occurs
  in no text and no value, the chain is one simultaneous substitution. Over values that may
  hold both braces the order can show, and over no others.
- **Config, ConfigValidation, Authorization, HashOrders**: the configuration check, the attribute
  generator and the static rules, and whether records can depend on the order in which hash
  maps iterate.
- **RateLimiter, RetryProtocol**: the token bucket over real time, related to the history of
  all attempts ever made, and the retry loop run by any number of concurrent callers.
- **ReviewCache, KeyRotation**: the TokenReview and SubjectAccessReview caches, and the cached
  key set, under every interleaving of lookups, replies, failures and insertions.
- **ReviewApi, Environment, Kube, Oidc**: what replies mean, the outside world, and the two
  objects that hold mutable state: the Kubernetes client (bucket and caches) and the OIDC
  authenticator (key set).
- **PathFilter, RawPaths, Pipeline, Proxy, EndToEnd**: the request filter. Pipeline describes a
  request as stages that each wait for one answer. The imperative filter in Proxy is proved to
  follow those stages, and EndToEnd runs any number of them over the shared caches.
- **Completion**: that those runs get anywhere, whatever has happened in them.
- **SharedKeys, TwinRuns, TwinRequests**: exactly when the shared access cache changes a decision.

Three results tie the parts together. `Pipeline.TranscriptForwards` says what must have been
answered, whoever answered and however, for a request to be forwarded as a user, and
`Proxy.Proxy.HandleRequest` carries it to what the upstream sees. `Pipeline.TranscriptDecides`
says that a request whose questions were answered by a fixed oracle got the decision that the
rules give when read directly. `EndToEnd.CachedFilterRefinesDirectFilter` says the same of
every completed request in every interleaved run over the caches, unless a review of the run
shares a cache key with a question of that request and has another answer.

That exception is real. `TwinRequests.OneRequestBreaksRefinement` gives a valid configuration and a
single request, `GET /metrics?name=one&name=two`, whose two records share a key: the second is
served the first one's verdict, and the request is forwarded where a filter that asks directly
answers 403. `TwinRuns.AlwaysRefinesIffNoTwins` is the exact condition, for any settings and
any scope of requests and users: all decisions are right in all runs, for every reviewer that
goes by what is posted, if and only if no requests of the scope ask about twins. Twins are two
records with one cache key and different posts, where the second one's post does not come up
earlier in the first one's request, where a denial would keep the first one from being asked
about at all (`TwinRequests.ShadowedPairIsHarmless` is a case in point). Where no key field
holds a `|`, `TwinRuns.PipeFreeScopeRefinesIff` states the condition without that clause.

Reading notes:

- A method that the source runs on shared state (`acquire`, `authorize`, `authenticate`,
  `jwks`, `request_filter`) is a class method here, with the source's fields. Its contract is
  stated over ghost histories (attempts, posts, fetches, exchanges) and the pure models.
- A state machine's step that is not possible in a state changes nothing, so "every list of
  actions" ranges over exactly the runs of the machine.
- Where the code and its wording differ, the code is followed. The message of the static-rule
  check speaks of resource rules with a path only; the code also rejects other rules without
  one, and so does the model. `/*` and `/{x}` match the root path, the latter with an empty
  capture, because the cleaned root splits into two empty segments.
- An entry's thirty seconds count from its insertion, not from the reviewer's evaluation.
  `ReviewCache.EntryAgeIsNotVerdictAge` gives the runs where the two differ, and
  `ReviewCache.StalenessBoundIsExact` the bound that does hold and is the best one.
- The access cache is right for all questions exactly when its key decides the verdict
  (`ReviewCache.RightIffKeyDecides`, `EndToEnd.AccessCacheIsRightIffNoTwins`). The key joins
  seven fields with `|`; it stands for the record's fields exactly when none of them holds a
  `|` (`ReviewApi.KeyIsFaithfulIffPipeFree`).
- SECURITY.md:3-5 says that identity headers supplied by callers are not trusted, and
  src/cert_auth.rs:29-30 that the internal header with the certificate's identity is inserted
  only from the TLS connection. The code replaces that header
  when the TLS layer recorded a name and otherwise leaves the request's own in place. The model
  follows the code: `Pipeline.CertificateDecidesUserIffRecorded` gives the exact condition and
  `Pipeline.UnrecordedCertificateForwards` what follows for the decision.
- The allow and ignore lists read the path as it was sent, the endpoint matcher a cleaned one.
  `RawPaths.StarSurvivesIff` and `RawPaths.LiteralSurvivesIff` say for which patterns a path
  that matches still does when cleaned. `/public/*` is not one of them.
- Identity headers are written on the upstream request only when they are switched on and the
  request has an identity. Otherwise the upstream sees whatever the caller sent under those
  names (`Proxy.SeenUpstream`, `Proxy.IdentityIsNotTheCallersIffWritten`).

## Model

| member | source | states |
|---|---|---|
| Text.SplitJoin | src/authorization.rs:63-91 | splitting joined parts gives the parts back when none holds the separator |
| Text.JoinSplit | src/authorization.rs:63-91 | joining the parts of a text gives the text back |
| Text.SplitConcat | src/authorization.rs:65-74 | a separator between two texts separates their parts |
| Text.JoinPartCount | src/kube.rs:291-300 | a join has at least as many parts as were joined, and no more exactly when none holds the separator |
| Text.LowerMeansIgnoringCase | src/authorization.rs:127-131 | lower-casing makes two texts equal exactly when they have equal length and at each position one character, or one letter of the two alphabets |
| PathCleaning.Clean | src/authorization.rs:63-75 | the push-and-pop loop computes the cleaned path of the stack semantics |
| PathCleaning.NormalFormIsUnique | src/authorization.rs:63-75 | any way of dropping empty and dot parts, undone names and leading `..` ends, if it ends irreducibly, in the cleaner's stack |
| PathCleaning.NormalFormIsReached | src/authorization.rs:63-75 | such a derivation always exists and ends in an irreducible list |
| PathCleaning.CleanPartsAreOrdinary | src/authorization.rs:63-75 | no cleaned segment is empty, `.` or `..`, or holds a slash |
| PathCleaning.CleanIsIdempotent | src/authorization.rs:63-75 | cleaning a cleaned path changes nothing |
| PathCleaning.CleanIsCompositional | src/authorization.rs:63-75 | a prefix may be cleaned on its own before the rest is appended |
| PathCleaning.TrimLeavesCleanPath | src/authorization.rs:76-89 | trimming slashes and restoring the root never changes a cleaned path |
| PathCleaning.SegmentsOfCleanPath | src/authorization.rs:74-91 | the root splits into two empty segments, any other cleaned path into an empty one and its parts |
| EndpointMatching.MatchEndpoint | src/authorization.rs:62-118 | succeeds exactly when lengths agree and each position is a literal, a star, or a validly and distinctly named capture; CaptureDecodes says what a capture is bound to |
| EndpointMatching.WalkSegments | src/authorization.rs:95-117 | the walk with early exits decides the same match and builds its captures |
| EndpointMatching.BindingsAreExact | src/authorization.rs:95-112 | the captured names are exactly the pattern's, each bound to the decoded segment at its position |
| EndpointMatching.CaptureDecodes | src/authorization.rs:97-112 | whichever encoding of some bytes stands at a capture, with digits in either letter case, its name is bound to the text of exactly those bytes |
| EndpointMatching.NameBySpelling | src/authorization.rs:99-102 | a valid name is a letter and then letters, digits and underscores |
| EndpointMatching.MatchingIgnoresUncleanPaths | src/authorization.rs:76-91 | cleaning pattern or path beforehand changes neither the decision nor the captures |
| EndpointMatching.SegmentsAreCleanParts | src/authorization.rs:76-91 | what is compared is an empty segment and the cleaner's stack |
| EndpointMatching.RootMatchesOneSegmentPatterns | src/authorization.rs:90-117 | a one-segment star or capture matches the root, capturing the empty text |
| EndpointMatching.CleanPartsAreRawParts | src/authorization.rs:63-75 | cleaned segments are a subsequence of the raw ones |
| EndpointMatching.ValidPatternFailsOnlyLiterally | src/authorization.rs:232-249 | a pattern whose raw segments were checked fails only by length or literal text |
| PercentEncoding.DecodeEncode | src/authorization.rs:107 | percent-decoding undoes the encoding in upper-case digits, whichever bytes besides the percent sign are escaped |
| PercentEncoding.DecodeUndoesEncoding | src/authorization.rs:107 | and every other encoding: each byte by itself or as a percent sign and two digits, each in either letter case |
| PercentEncoding.StrayPercentStays | src/authorization.rs:107 | a byte that starts no escape stays, a percent sign too |
| PercentEncoding.Utf8CharSpells | src/authorization.rs:107 | the bytes of a character are those that sections 3 and 4 of RFC 3629 give its code point |
| PercentEncoding.Utf8KeepsAsciiApart | src/authorization.rs:107 | an ASCII byte occurs in the encoding exactly when its character occurs in the text |
| Templates.ExpandValue | src/authorization.rs:39-45 | the loop over the captures carries out the chain of replacements in the map's order |
| Templates.ExpandEndpointIsChain | src/authorization.rs:46-61 | the six request tokens extend that chain, both spellings of each |
| Templates.ReplaceIsSubst | src/authorization.rs:40-42 | when text lacks one of the braces, one textual replacement turns exactly the named tokens into the value |
| Templates.ChainIsSubst | src/authorization.rs:39-61 | when text and values lack one of the braces, sequential replacement equals simultaneous substitution; unnamed tokens stay verbatim |
| Templates.MeaningIsTokenValue | src/authorization.rs:39-61 | which value a token gets, with no order in it |
| Templates.ExpandEndpointIsSimultaneous | src/authorization.rs:46-61 | the whole chain is then the simultaneous expansion, for every iteration order |
| Templates.OrderMattersWithBraces | src/authorization.rs:41-43 | a first family where the order shows: one capture's value spells the other's token |
| Templates.OrderShowsWhenTokensAreGlued | src/authorization.rs:41-43 | a second one: two captures' values put the braces of a third one's token around its content, all values non-empty |
| Templates.OrderNeverShowsIffABraceIsBarred | src/authorization.rs:39-61 | over values as requests give them, of given characters, all orders agree for every template and capture map exactly when one of the braces is not among them |
| ConfigValidation.ValidateAuthorizationConfig | src/authorization.rs:222-278 | accepts exactly the valid configurations and otherwise reports the first defect |
| ConfigValidation.CheckSegments | src/authorization.rs:232-249 | accepts exactly patterns whose braces form well-named, distinct captures, else names the first defect |
| ConfigValidation.CheckMapping | src/authorization.rs:250-269 | accepts exactly mappings with methods, rules and non-blank rewrite names, else names the first defect |
| ConfigValidation.CheckEndpoint | src/authorization.rs:223-270 | the same for a whole endpoint, checks in the source's order |
| ConfigValidation.FirstDefectIsUnique | src/authorization.rs:222-278 | a configuration has at most one first defect, and none when valid |
| ConfigValidation.ValidConfigMeaning | src/authorization.rs:222-278 | being valid, spelled out: paths and rewrite names that show something, segments without braces or named captures that differ, no empty lists, a path on exactly the static rules that are not for resources |
| ConfigValidation.ValidConfigFailsOnlyLiterally | src/authorization.rs:232-249 | on a valid configuration no path is rejected because of a pattern's captures |
| Authorization.Collect | src/authorization.rs:200-220 | collects every query value of the name, then every textual header value |
| Authorization.HeaderValuesAreAll | src/authorization.rs:210-217 | header values are the textual ones of that name, in any letter case, all of them and in order |
| Authorization.QueryValuesAreAll | src/authorization.rs:202-208 | query values are those of that exact name, all of them and in order |
| Authorization.FirstHeaderMeaning | src/authorization.rs:281-287 | the header read is the first of its name, empty when absent or not text |
| Authorization.FirstHeaderIgnoresCase | src/authorization.rs:281-287 | the letter case of the configured name does not matter |
| Authorization.FirstQueryMeaning | src/authorization.rs:288-293 | the query value read is that of the first pair of its name |
| Authorization.EndpointRewritesMeaning | src/authorization.rs:280-316 | a named header or parameter that is empty is an error, the header first; the value is the header, else the parameter |
| Authorization.VerbOfMethod | src/authorization.rs:26-37 | the seven methods with a verb of their own, and the star for all others |
| Authorization.ExpandRules | src/authorization.rs:135-155 | the loop over the rules yields all records in order, or the first error |
| Authorization.GenerateAttributes | src/authorization.rs:119-199 | the loop over endpoints with its early return computes the records of the request; what they hold is in FirstEndpointIsFirst, FirstMapping, RuleRecordFields and GlobalRecordsMeaning |
| Authorization.FirstEndpointIsFirst | src/authorization.rs:125-126 | the endpoint used is the first whose pattern matches, and only that |
| Authorization.FirstMapping | src/authorization.rs:128-134 | the first mapping that handles the method, and none exactly when no mapping does |
| Authorization.FirstMappingLists | src/authorization.rs:128-134 | mapping k is used exactly when one of its methods is the request's, in whatever letter case, and none of an earlier one is |
| Authorization.FirstMatchAloneDecides | src/authorization.rs:125-157 | the first matching endpoint alone determines the records |
| Authorization.RuleRecordsInOrder | src/authorization.rs:135-155 | one record per rule in order, or the error of the first failing rule |
| Authorization.MatchedEndpointRecords | src/authorization.rs:125-157 | on a valid configuration a match gives an error or exactly one record per rule, never none |
| Authorization.RuleRecordFields | src/authorization.rs:137-153 | each field of a record holds what its own template means; the verb falls back to the method's |
| Authorization.ValueOnlyIsSubst | src/authorization.rs:181-186 | outside endpoints exactly the value token is substituted |
| Authorization.ValueRecordFields | src/authorization.rs:179-190 | each field of a global record holds its own template with the value put in; the verb is no template |
| Authorization.GlobalRecordsMeaning | src/authorization.rs:158-198 | outside endpoints: one record per rewrite value or none, the configured verb or the method's, and without attributes one record of verb and path |
| Authorization.RecordsIgnoreHashOrder | src/authorization.rs:119-157 | when templates and request values lack one of the braces, the records do not depend on the order in which hash maps iterate |
| HashOrders.PathGivesBraces | src/authorization.rs:95-112 | the path `/%7B%7B/%7D%7D/%7B` binds three captures to braces |
| HashOrders.RecordsShowOrder | src/authorization.rs:119-157 | on that path two listings of the captures give one rule's record two different names |
| HashOrders.RecordsNeverShowOrderIffABraceIsBarred | src/authorization.rs:119-157 | over valid configurations and requests of given characters the records never depend on the order exactly when one of the braces is not among them |
| Authorization.DeniedMeaning | src/authorization.rs:338-350 | a record is denied exactly when each rule of its kind spells out a field that differs |
| Authorization.StaticAllowsIsMonotone | src/authorization.rs:338-350 | adding rules never turns an allow into a deny |
| Authorization.ValidStaticRulesAndPaths | src/authorization.rs:271-277 | with valid rules a resource decision ignores the path, and another needs a rule naming it |
| RateLimiter.BucketIsExact | src/kube.rs:163-180 | an attempt is granted exactly when granting it keeps every window within burst plus rate times length |
| RateLimiter.RefilledIsWorstRoom | src/kube.rs:170-173 | the tokens are the smallest room left in any window |
| RateLimiter.TokensStayInRange | src/kube.rs:170-176 | tokens stay between zero and the burst |
| RateLimiter.EveryWindowIsBounded | src/kube.rs:163-187 | in every run every window between two attempts obeys the bound |
| RateLimiter.EveryIntervalIsBounded | src/kube.rs:163-187 | so does every interval of time |
| RateLimiter.TotalIsBounded | src/kube.rs:157-180 | all grants since construction are within burst plus rate times elapsed time |
| RateLimiter.WaitIsExact | src/kube.rs:174-179 | with no competitor an attempt succeeds exactly from the waiting time on |
| RateLimiter.AttemptMade | src/kube.rs:168-180 | one locked step continues the history, and its waiting time makes later attempts fit |
| RateLimiter.SomeoneIsGranted | src/kube.rs:167-186 | after a refusal, an attempt past the waiting time is granted or another was in between |
| RetryProtocol.StepKeepsInvariant | src/kube.rs:163-187 | every step keeps grants equal to posts plus unused grants, each post on its own caller's grant, and each caller's replies in order |
| RetryProtocol.StepKeepsPatience | src/kube.rs:174-184 | every step keeps refused callers asleep for the time they were told, and posting ones for their back-off |
| RetryProtocol.PostsAreRateLimited | src/kube.rs:363-372 | in every run each post used a grant given to its own caller before it and used by no other post, so all posts obey the rate bound |
| RetryProtocol.RetriesBackOff | src/kube.rs:364-378 | the grant of a call's later post comes no sooner than the back-off after each earlier post |
| RetryProtocol.CallsReturnTheRightReply | src/kube.rs:363-380 | a call posts at most three times and returns the first non-retryable reply or the third |
| RetryProtocol.FinalRepliesAreUnique | src/kube.rs:373-377 | the replies determine where a call stops |
| RetryProtocol.Backoffs | src/kube.rs:364-378 | three attempts, with back-offs of 50 and 100 ms |
| RetryProtocol.RefusedCallerProgresses | src/kube.rs:167-186 | when a refused caller tries again it is granted, unless an attempt in between was granted |
| ReviewApi.KeyIsFaithful | src/kube.rs:291-300 | a record shares the key of a pipe-free one exactly when all seven fields agree |
| ReviewApi.KeyIsFaithfulForAnyPath | src/kube.rs:291-300 | so do records of any path among themselves, when the other six fields are pipe-free |
| ReviewApi.OtherReading | src/kube.rs:291-300 | the key of a record with a pipe in any field is also that of other fields |
| ReviewApi.KeyIsFaithfulIffPipeFree | src/kube.rs:291-300 | no other fields give a record's key exactly when none of its own holds a pipe |
| ReviewApi.PostCarriesRecord | src/kube.rs:306-325 | a post is the record's exactly when it carries user, groups and all seven resource fields, or path and verb, and not the other spec |
| ReviewApi.SameKeySameReview | src/kube.rs:249-328 | a record with the key of a pipe-free one is reviewed by the same post exactly when groups, kind and, for resources, subresource and name agree |
| ReviewApi.SameReviewOtherKey | src/kube.rs:291-328 | resource records that differ in path only are one review under two keys |
| ReviewCache.StepKeepsSound | src/kube.rs:301-355 | every step keeps each entry a verdict given for its key, no later than its timestamp |
| ReviewCache.EveryRunIsSound | src/kube.rs:523-535 | so in every reachable state, and every cached verdict served is from an entry within its lifetime |
| ReviewCache.TimestampsNeverDecrease | src/kube.rs:350-354 | entries are never dropped, timestamps never decrease, failures leave the cache alone |
| ReviewCache.RightIffKeyDecides | src/kube.rs:291-305 | every verdict served is right for its question in every run exactly when the key decides the verdict among the questions asked |
| ReviewCache.ServedVerdictsAreRecent | src/kube.rs:301-305 | with insertions within a delay of the evaluation, a verdict served is younger than the lifetime of entries plus that delay |
| ReviewCache.EntryAgeIsNotVerdictAge | src/kube.rs:350-354 | for every delay, runs that serve a verdict any little short of lifetime plus delay after it was given |
| ReviewCache.StalenessBoundIsExact | src/kube.rs:301-305 | a bound on the age of verdicts served holds in all such runs exactly when it is at least lifetime plus delay |
| ReviewCache.EveryRunConverges | src/kube.rs:301-354 | once the reviewer has settled on a verdict and older answers have drained, after one more lifetime every verdict served for that key is it |
| Kube.KubernetesClient.constructor | src/kube.rs:150-161 | starts with a full bucket of at least one token and empty caches |
| Kube.KubernetesClient.TryAcquire | src/kube.rs:168-180 | grants exactly when every window fits; a refusal tells a wait after which attempts fit |
| Kube.KubernetesClient.Acquire | src/kube.rs:163-187 | without a competitor returns after at most two attempts with exactly one grant, as the retry protocol's next steps |
| Kube.KubernetesClient.RequestWithRetry | src/kube.rs:358-381 | posts one to three times, each on its own grant and after its back-off, and returns the first non-retryable or third reply; the client's whole life is a run of the retry protocol |
| Kube.OneCallMeaning | src/kube.rs:363-380 | the posts of a call are one body sent one to three times, again only after status 429 or 5xx, no sooner than 50 and then 100 ms |
| Kube.CallIsRun | src/kube.rs:301-355 | looking up, asking and inserting are the cache machine's steps, wherever in between the answer was given |
| Kube.FreshMeansThirtySeconds | src/kube.rs:301-305 | an entry is served exactly when it was inserted less than thirty seconds ago |
| Kube.KubernetesClient.SentIsBounded | src/kube.rs:358-381 | all posts of a client are within burst plus rate times elapsed time |
| Kube.KubernetesClient.AuthenticateToken | src/kube.rs:513-536 | a fresh entry is returned without a post; otherwise the reply decides, and only a verdict is cached; the cache moves as in a run of the cache machine |
| Kube.KubernetesClient.Authorize | src/kube.rs:248-356 | the same for access reviews, under the seven-field key, and every post carries the record field by field |
| Oidc.KeysOfIsExact | src/oidc.rs:119-131 | a key set holds exactly the identifiers published with a usable RSA key, each with its last one |
| Oidc.OidcAuthenticator.Jwks | src/oidc.rs:95-135 | the cached set while under 3600 s old and not forced, else the set fetched and cached now |
| Oidc.OidcAuthenticator.FindKey | src/oidc.rs:145-151 | at most two fetches, the second exactly when the first lacks the key; a key every fetched set publishes is found; the key is from a fetched or fresh set; the last set fetched is cached |
| KeyRotation.EveryRunKeepsInvariant | src/oidc.rs:95-151 | in every interleaving of lookups over the one key set, each lookup's result is backed by what the issuer published |
| KeyRotation.MissingMeansUnpublished | src/oidc.rs:145-151 | a lookup ends without a key only if the issuer, asked since it began, published none of that name |
| KeyRotation.FoundMeansPublished | src/oidc.rs:95-151 | a key found was published under that name, in a set fetched by the caller or less than an hour in the cache |
| KeyRotation.FindKeyIsLookup | src/oidc.rs:145-151 | every lookup that the method's contract allows is a sequence of this machine's steps, from whatever state the other callers left, with the same end and the same cached set |
| Oidc.OidcAuthenticator.AuthenticateToken | src/oidc.rs:137-176 | the outcome follows from header, found key and verified claims; an identity has the prefixed text of the username claim and the prefixed groups of the groups claim, in order |
| Oidc.IdentityMeaning | src/oidc.rs:156-175 | claims give an identity exactly when the username claim is text, and then that one |
| Oidc.TextsAreAll | src/oidc.rs:161-165 | the groups of a list claim are its text elements, all of them and in order |
| Oidc.IsKeyMeaning | src/oidc.rs:119-131 | a usable key is an RSA key whose components make one |
| Oidc.WordsAreWords | src/oidc.rs:166-169 | group names from text are non-empty and free of whitespace |
| Oidc.WordsKeepText | src/oidc.rs:166-169 | and lose nothing of the text but whitespace |
| Oidc.WordsConcat | src/oidc.rs:166-169 | whitespace between two texts separates their words |
| Oidc.WordsOfWord | src/oidc.rs:166-169 | text without whitespace is one word |
| PathFilter.OneStarMeaning | src/pingora_proxy.rs:46-52 | one star accepts prefix, anything, suffix, and just the shorter paths where the two overlap |
| PathFilter.OtherPatternsAreLiteral | src/pingora_proxy.rs:46-52 | with no star, or more than one, a pattern accepts only itself |
| PathFilter.TwoPartsAreOneStar | src/pingora_proxy.rs:50-51 | splitting in two parts means exactly one star |
| PathFilter.AnyMatchesIsUnion | src/pingora_proxy.rs:95-101 | a list accepts a path exactly when a pattern in it does, wherever it stands, and an empty list accepts none |
| RawPaths.StableEndStays | src/authorization.rs:63-75 | an end without dot parts, ordinary after its first part, stays the end of every path that is cleaned |
| RawPaths.StarSurvivesIff | src/pingora_proxy.rs:46-52 | every absolute path that matches a one-star pattern still does when cleaned exactly when the prefix is empty or a slash and the suffix is such an end, or no absolute path matches |
| RawPaths.LiteralSurvivesIff | src/pingora_proxy.rs:46-52 | a literal pattern does exactly when it is clean itself, or no absolute path |
| Pipeline.CertificateDecidesUser | src/pingora_proxy.rs:53-68 | a recorded certificate name replaces any header of that name and decides the user; without one the request's own header does |
| Pipeline.CertificateDecidesUserIffRecorded | src/pingora_proxy.rs:53-68 | the certificate user is the certificate's own for every request exactly when a name was recorded |
| Pipeline.UnrecordedCertificateForwards | src/pingora_proxy.rs:101-134 | with the certificate authenticator first, such a request is forwarded as the user its own header names, when that user's records pass |
| Pipeline.BearerTokenMeaning | src/kube.rs:514-522 | the token is t exactly when the first authorization header reads `Bearer ` or `bearer ` and then t |
| Pipeline.CertificateUserMeaning | src/cert_auth.rs:39-52 | the certificate user is the prefix and the non-empty text of the internal header, without groups |
| Pipeline.Resume | src/pingora_proxy.rs:102-134 | each answer takes a stage strictly closer to done |
| Pipeline.ConcludeAuthenticate | src/authn.rs:23-30 | the stages of the chain end as the first identity or failure of the chain does |
| Pipeline.MachineDecides | src/pingora_proxy.rs:94-134 | the stages reach the decision of a filter that asks directly |
| Pipeline.TranscriptDecides | src/pingora_proxy.rs:94-134 | any finished exchange of questions answered by one oracle carries the direct decision |
| Pipeline.TranscriptForwards | src/pingora_proxy.rs:94-134 | whoever answered: a forwarded request was ignored and nothing was asked, or its user is vouched for and each record is allowed statically or by an answer received |
| Pipeline.ForwardedMeaning | src/pingora_proxy.rs:94-134 | forwarded exactly when admitted and ignored, or authenticated with a non-empty list of passing records |
| Pipeline.ForwardsAreIdentifiedIffNothingIgnored | src/pingora_proxy.rs:95-101 | every forwarded request has a user exactly when no admitted path is ignored |
| Pipeline.RefusedMeaning | src/pingora_proxy.rs:94-134 | exactly when the answer is 404, 401 or 403, and no other status is answered |
| Pipeline.VerdictMeaning | src/pingora_proxy.rs:118-134 | all records must pass, and the first that does not decides the refusal |
| Pipeline.ReviewsInOrder | src/pingora_proxy.rs:118-132 | reviews are asked in order, only for records no static rule allows, up to the first that is not allowed |
| Proxy.Proxy.Consult | src/authn.rs:23-30 | one authenticator asks at most one question, whose answer is its own; it asks exactly when a bearer token is read, and about that token |
| Proxy.Proxy.RunChain | src/authn.rs:23-30 | the loop over the chain follows the stages up to the first identity or failure |
| Proxy.Proxy.AuthorizeAll | src/pingora_proxy.rs:118-132 | the loop over the records follows the stages, with early exits |
| Proxy.Proxy.FilterFor | src/pingora_proxy.rs:112-134 | attribute generation and authorization follow the stages |
| Proxy.Proxy.FilterAdmitted | src/pingora_proxy.rs:102-134 | authentication and all that follows do |
| Proxy.Proxy.Filter | src/pingora_proxy.rs:95-134 | the filter of a counted request follows the stages from the allow list on |
| Proxy.Proxy.RequestFilter | src/pingora_proxy.rs:76-135 | operational endpoints answer uncounted; other requests are counted, follow the stages, and leave an identity only when authorized |
| Proxy.UpstreamHeader.Insert | src/pingora_proxy.rs:176-180 | replaces every field of the name, in any letter case, and no other, or fails and changes nothing |
| Proxy.FieldsAreAll | src/pingora_proxy.rs:176-180 | what a name shows are the fields of that name, in any letter case, all of them and in order |
| Proxy.Proxy.UpstreamRequestFilter | src/pingora_proxy.rs:168-184 | fixes what every name shows afterwards: the identity exactly when configured and present, else the fields as they were |
| Proxy.IdentityIsNotTheCallersIffWritten | src/pingora_proxy.rs:174-183 | what the upstream sees under the identity headers is independent of the caller's own headers exactly when an identity is written |
| Proxy.Proxy.HandleRequest | src/pingora_proxy.rs:73-184 | which requests are sent upstream and what every header name shows there; one forwarded for a user was cleared record by record in this run |
| EndToEnd.SameKeySameAnswer | src/kube.rs:291-305 | a pipe-free question shares its key only with questions of the same answer, when verdicts depend on the key fields |
| EndToEnd.EveryRunKeepsInvariant | src/pingora_proxy.rs:102-134 | in every interleaving cached verdicts are the reviewer's for some question of their key, and every undisturbed request stays on course |
| EndToEnd.CachedFilterRefinesDirectFilter | src/pingora_proxy.rs:102-134 | in every run with any reviewer, a completed, uninterrupted request has the outcome of a filter that asks directly, unless a review of the run shares a key with one of its questions and differs in the answer |
| Completion.EveryRequestCanFinish | src/pingora_proxy.rs:102-134 | after any run each request under way can be brought to its end, at any later time, by its own questions and without being interrupted or touching another |
| EndToEnd.PipeFreeRequestRefines | src/kube.rs:291-305 | so it has, whatever all other requests ask, if its own records are pipe-free and verdicts depend on the key fields |
| EndToEnd.AnyPathRequestRefines | src/kube.rs:291-305 | and for any path, if the other key fields are pipe-free in all reviews of the run |
| EndToEnd.RequestWithoutTwinRefines | src/kube.rs:249-328 | and for a reviewer that goes by what is posted, if the run's own reviews agree with its records on more than the key; TwinRuns gives the condition on the settings |
| EndToEnd.AccessCacheIsRightIffNoTwins | src/kube.rs:291-328 | the access cache is right for every such reviewer exactly when no two records asked about share a key and are different posts |
| SharedKeys.AskedByRequest | src/pingora_proxy.rs:102-132 | all a request asks: questions of the chain, then a beginning of its needed reviews, all but the last one allowed |
| SharedKeys.EveryReviewIsAsked | src/kube.rs:291-355 | when questions under one key agree, every review of every run is one that some request of the scope asks directly |
| TwinRuns.OnePostOneRecord | src/authorization.rs:119-199 | within a request, records with one post are one record |
| TwinRuns.TwinsBreakRefinement | src/kube.rs:291-305 | for every pair of twins, a reviewer of posts and a run in which the second one's request is forwarded and the direct filter does not forward it |
| TwinRuns.AlwaysRefinesIffNoTwins | src/kube.rs:249-355 | for any settings and scope, all completed, uninterrupted requests of all runs get the direct decision, for every reviewer of posts, exactly when no requests ask about twins |
| TwinRuns.PipeFreeScopeRefinesIff | src/kube.rs:249-355 | where records hold no pipes, exactly when no two asked about agree on the key fields and differ in groups, kind or, for resources, subresource or name |
| TwinRequests.TwoNamesOneKey | src/authorization.rs:168-192 | two values of a query parameter that only the name takes make two records of one key and different posts |
| TwinRequests.OneRequestBreaksRefinement | src/authorization.rs:168-192 | a valid configuration and one request that is forwarded on its first record's verdict where the direct filter answers 403 |
| TwinRequests.ShadowedPairIsHarmless | src/kube.rs:291-305 | two requests whose records share a key and are posted differently, and yet all decisions in all runs of the two are right |

## Left out

- RateLimiter.BucketIsExact: time, rate and tokens are real numbers, so floating-point rounding and the truncation of waits to whole nanoseconds are not modelled.
- EndpointMatching.MatchEndpoint: turning decoded bytes into text with replacement of malformed sequences is a parameter; the decision does not depend on it.
- Kube.KubernetesClient.Acquire: the object is used by one caller at a time; competing callers are the subject of RetryProtocol and ReviewCache.
- EndToEnd.CachedFilterRefinesDirectFilter: the rate limiter and retries appear as arbitrary delays and failures of replies, and OIDC answers come straight from the oracle; concurrent use of the key set is the subject of KeyRotation.
- Pipeline.CertificateDecidesUser: a recorded name with control characters makes the program panic while it builds the header; in the model such a name stands for nobody, as one that is not ASCII does.
- Several Kubernetes or OIDC authenticators in one chain share one client or one key-set cache.
- Proxy.Proxy.HandleRequest: the hop-by-hop headers that the proxy library removes or rewrites by itself on the way upstream are not modelled.
- HTTP parsing, header-map limits, TLS, peer construction, timeouts, logging and the other listeners.
- Signature checks, RSA component checks and certificate parsing, which are parameters or inputs.
- Kubeconfig and in-cluster loading, YAML and JSON decoding, and command-line argument checks.
- `src/proxy.rs`, which the library does not declare.
