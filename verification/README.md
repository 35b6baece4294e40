# Email gateway: a verified model

The gateway receives mail over SMTP, authenticates it, scores it, and forwards, rewrites or
quarantines it. It is put together from many small engines that keep state of their own. This
project models those engines in Dafny, one module for each source file (a few modules hold what
several files share), and proves what the engines promise over all inputs and all runs.

* **Authentication.** `Spf` is the recursive SPF interpreter with its shared, mutable lookup budget;
  `SpfSemantics` gives the same records a meaning without budget, order of evaluation or state, and
  relates the two in both directions; `SpfGrammar` reads records from their texts, and `SpfBudget` says
  what lookups cost and what a run returns once the budget is spent.
* **Lookalikes.** `EditDistance` defines the distance by walks of single edits; both table loops
  (`Typosquat`, `CtMonitor`) are proved against it.
* **Links.** `LinkScan`, `LinkIdempotence`, `TimeOfClick` and `Encodings` cover the signed redirect
  links, `Defang` the neutering of links in warned mail.
* **Receiving.** `LineProtocol` and `SmtpReceiver` cover stream reassembly, the command and data modes
  and the processing tasks, `SmtpCommands` what each command line does from its text on;
  `SmtpInterleaving` is about what lines and tasks do to messages in between.
* **Timed state.** `TimedStore` is the store with lazy expiry, and `RateLimit`, `TenantRateLimiter`,
  `WindowCount`, `Decimal` and `Caching` are what is built on it.
* **Resilience.** `CircuitBreakers` and `Retry`, with the cost of an outage; `MessageQueue` with its
  workers, retries and dead-letter list.
* **Detection.** `Bits`, `RecentLog`, `CampaignClustering` and `Dlp` (SimHash and pruned logs),
  `HtmlEvasion` (the hidden-text stack machine against the element tree) and `HidingStyles` (which style
  attributes hide).
* **Decision and delivery.** `Scorer`, `FeedbackLoop`, `Delivery`, `QuarantineStores` and
  `TenantManagers`.

Objects that the source updates in place are classes with the same fields, and their methods state
the whole new state; most do so through a pure function that the lemmas are about. Time is a real
number handed to each operation, on a clock that does not go back. Whatever comes from outside is a
parameter: DNS answers (a fixed function of name and type), the keyed hash of a link, MD5, the
cipher, macro expansion, the network test of SPF, the registrable label of a domain, the outcome of
each send, jitter, and fresh identifiers. Where a source coroutine can be overtaken at an await, it
is a sequence of steps that may be interleaved with others.

## Where the code differs from its documentation

* The code of the SPF evaluator is followed, not RFC 7208: an included domain without a record is no
  match (section 5.2 asks for permerror), hosts of `mx` are charged to the budget of section 4.6.4,
  a prefix length after `a` or `mx` is ignored, DNS errors are swallowed, the last `redirect=` wins. TEMPERROR is therefore never produced
  (`Spf.CheckSpf`). `SpfSemantics.ReadingsAgreeIffNoVoid` says exactly when the rule for included
  domains makes no difference.
* Defanged text is documented as not clickable. The scan ignores letter case and the replacement does
  not, so `HTTP://x` survives (`Defang.UpperCaseSurvives`); `Defang.NothingSurvivesIffLowerCase` says
  exactly when nothing does.
* `spend` is documented to make its caller return PERMERROR when it refuses. A refusal among the hosts
  of an `mx` term counts as no match instead: `mx +all` with ten other hosts passes
  (`SpfBudget.MxThenAllPasses`). `SpfBudget.RefusedUnlessCut` says what every refused run returns.
* Rewriting links twice is harmless for base URLs without delimiter characters;
  `TimeOfClick.TocIdempotentIff` is the exact condition for all others.
* The NUL-separated cache entry keeps a verdict exactly when the verdict has no NUL
  (`Caching.VerdictRoundTrip`).
* A processing task that ends clears the envelope and the buffered lines of whatever the session is
  doing by then. A message is dispatched whole exactly when no task ends while its lines are buffered
  (`SmtpInterleaving.DispatchedIffUninterrupted`).
* A message is submitted with the envelope that the session has when its task starts, which is after
  all lines of the same chunk. That is its own exactly when nothing in between touches it, or the last
  MAIL, RSET or task end names the same sender and the RCPT commands after it the same recipients
  (`SmtpInterleaving.OwnEnvelopeIffRestored`); of two messages in one chunk, both go out under the
  second envelope (`FirstUnderSecondsEnvelope`). The recipient list is handed on as an object, so RCPT
  commands extend a message in process until a new list is started (`RecipientsKeptIff`).
* A command keyword is found in the stripped line, but its address is cut from the line itself: with
  white space in front the wrong address is read (`SmtpCommands.AddressIffFlush`), and parameters
  behind the address become part of it (`SmtpCommands.ParametersJoinTheAddress`).
* A worker that is stopped inside its handler drops its task, which stays pending for ever with nobody
  (`MessageQueue.StoppedWorkerLosesTask`, `AbandonedForGood`). All pending tasks are queued or in flight
  exactly when no worker that has a task is cancelled (`MessageQueue.InHandIffNoCancel`).
* The mirror copy is sent first and its failure is only logged; a cancellation while it is sent is no
  such failure and leaves the message neither relayed nor held (`Delivery.MirrorHarmsOnlyWhenCancelled`).
* A `style` attribute without a value raises inside the parser, and the detector then reports nothing
  for the document (`HtmlEvasion.HiddenButNotReported`); `HtmlEvasion.ReportedIffHiddenOrMisread` says
  exactly which documents are reported.
* The HTML parser calls no end handler for void elements such as `br`, but every end tag pops an entry,
  so text after a hidden element around a `br` counts as hidden (`HtmlEvasion.VoidHidesVisibleText`);
  `HtmlEvasion.DocumentIsClassified` says exactly when hidden and visible text are right.
* Off-screen positioning is documented as recognised, but the code looks for the property name inside
  the value, so `left:-9999px` is not (`HtmlEvasion.NegativeLeftIsNotHidden`, `OffScreenNeedsColon`).
* A comment in the feedback engine gives the score steps as 10; the code uses 15, and so does the model.
* A domain taken over by a second tenant is nobody's after that tenant leaves
  (`TenantManagers.TakenDomainIsLost`); `TenantManagers.CompleteIffNoOrphan` says exactly which
  operations lose a listed domain.

## Model

| member | source | states |
|---|---|---|
| `EditDistance.LevIsShortestChain` | content_analysis/urls.py:77-91 | the recurrence that the row loops fill in is the length of a shortest chain of single-character inserts, deletes and substitutes, and no other number is |
| `EditDistance.DistanceIsUnique` | content_analysis/urls.py:77-91 | the edit distance is one number, and it is 0 exactly for equal strings |
| `EditDistance.DistanceIsSymmetric` | threat_intel/ct_monitor.py:22-23 | swapping the two strings does not change the distance, which is why the swapped call may stand for the original one |
| `EditDistance.DistanceIsTriangular` | content_analysis/urls.py:77-91 | the distance satisfies the triangle inequality |
| `Typosquat.Levenshtein` | content_analysis/urls.py:77-91 | the two-row loop over arrays returns the edit distance, early exits included |
| `Typosquat.FindTyposquatTarget` | content_analysis/urls.py:100-135 | returns the first watch-list entry that the domain contains or is near without being it, and None exactly when there is no such entry |
| `CtMonitor.LevenshteinDistance` | threat_intel/ct_monitor.py:19-36 | the appending row loop, with its call on swapped arguments, returns the same edit distance |
| `CtMonitor.CTLogMonitor.constructor` | threat_intel/ct_monitor.py:12-14 | brands are kept lower-case and stripped, and no certificate is suspicious yet |
| `CtMonitor.CTLogMonitor.AddBrandDomain` | threat_intel/ct_monitor.py:16-17 | one cleaned brand more, alerts unchanged |
| `CtMonitor.CTLogMonitor.IsLookalikeDomain` | threat_intel/ct_monitor.py:38-59 | there is a hit exactly when some brand is within distance 2 or embedded, in whatever order the brand set is visited; the hit names such a brand, and distance 0 is reported for an embedded one only when no squatting distance applies |
| `CtMonitor.LookalikeIff` | threat_intel/ct_monitor.py:38-59 | a name that is not the brand is its lookalike exactly when its first label contains the brand label, or is one or two edits away and the brand label has more than three characters |
| `CtMonitor.BaseNameIsRead` | threat_intel/ct_monitor.py:39-46 | that label is what precedes the first dot, without white space and letter case |
| `CtMonitor.CTLogMonitor.FirstLookalike` | threat_intel/ct_monitor.py:67-70 | the first name of a list that is a lookalike, with a brand that explains it, and None exactly when there is none |
| `CtMonitor.CTLogMonitor.ProcessCtLogEntry` | threat_intel/ct_monitor.py:61-83 | no alert exactly when neither a listed domain nor the common name is a lookalike; otherwise one alert with the entry's own data is appended, for the first; the common name joins the caller's list |
| `Spf.LookupBudget.Spend` | auth_checker/spf.py:26-31 | refuses exactly when the limit is reached, and counts otherwise |
| `Spf.MxMatches` | auth_checker/spf.py:248-260 | one query for the exchangers and one charged query per host, stopping at the first match or the first refusal |
| `Spf.MatchTerm` | auth_checker/spf.py:166-215 | verdict, charges and queries of every mechanism other than include, at any state of the shared budget |
| `Spf.Evaluate` | auth_checker/spf.py:135-155 | the method over the mutable budget and resolver computes the budgeted evaluation, its lookups and its query count, and terminates on every DNS graph |
| `Spf.EvaluateCharged` | auth_checker/spf.py:177-180 | an include or redirect target is evaluated one level deeper only after a lookup was granted |
| `Spf.EvaluateTerms` | auth_checker/spf.py:157-227 | the term loop with its early returns, its last-wins redirect and its final fallback computes the term semantics |
| `Spf.CheckSpf` | auth_checker/spf.py:263-290 | at most 10 lookups, queries are exactly one more than the lookups reported, TEMPERROR is never produced and the depth guard is never reached |
| `Spf.BoundedRun` | auth_checker/spf.py:143-227 | for every DNS graph, cyclic ones included, recursion depth stays within the lookups used and each lookup pays for exactly one query |
| `SpfBudget.RefusedUnlessCut` | auth_checker/spf.py:26-31 | at any depth and budget: a run that is refused a lookup returns PERMERROR, unless the first refusal is among the hosts of an mx term; then it has spent everything and returns what the terms behind it come to without a lookup, through the includes that led there |
| `SpfBudget.RefusedButNoError` | auth_checker/spf.py:248-260 | the run that check_spf starts is refused without returning PERMERROR exactly when it was cut that way and something decides for free |
| `SpfBudget.SpentTerms` | auth_checker/spf.py:157-227 | with nothing left to spend, the terms come to the first free match, to PERMERROR at the first term or redirect that needs a lookup, and to neutral otherwise |
| `SpfBudget.MxThenAllPasses` | auth_checker/spf.py:248-260 | an input family: the record "v=spf1 mx +all" with n hosts that do not match passes after min(10, n + 1) lookups, and has been refused one exactly from n = 10 on |
| `SpfGrammar.RecordsDecide` | auth_checker/spf.py:115-150 | exactly one record makes a policy; two are PERMERROR, none or a DNS error is NONE, all without a lookup |
| `SpfGrammar.TagDecides` | auth_checker/spf.py:120 | a text is a record exactly when, behind white space, it starts with v=spf1 in any letter case |
| `SpfGrammar.MechanismIsReadBack` | auth_checker/spf.py:163-219 | reading the text of any mechanism gives the mechanism back: all, ip4:, ip6:, include:, a, a:, mx, mx:, exists:, redirect= |
| `SpfGrammar.PrefixLengthIsIgnored` | auth_checker/spf.py:187-193 | a prefix length after a or mx is read over |
| `SpfGrammar.TermIsReadBack` | auth_checker/spf.py:158-161 | a leading + - ~ or ? is the qualifier, and + is the default |
| `SpfGrammar.RecordIsReadBack` | auth_checker/spf.py:152-161 | reading the record written for any list of terms gives the list back |
| `SpfGrammar.AllDecides` | auth_checker/spf.py:163-236 | when the terms before it do not decide, -all comes to FAIL, ~all to SOFTFAIL, ?all to NEUTRAL, +all and all to PASS, in every check that is refused no lookup, whatever follows |
| `SpfBudget.FreePolicyDecides` | auth_checker/spf.py:157-236 | if those terms need no lookup and do not match, the check is refused nothing, spends nothing and comes to just that |
| `SpfBudget.OutsiderFails` | auth_checker/spf.py:166-168 | an IPv4 client outside the network fails "v=spf1 ip4:net -all" |
| `SpfBudget.EmptySenderIsUser` | auth_checker/spf.py:151 | an empty sender is checked as user@domain |
| `SpfBudget.RedirectHandsOver` | auth_checker/spf.py:217-225 | a policy of redirects only comes to what the target of the last of them comes to, one lookup and one level further |
| `SpfBudget.NothingDecides` | auth_checker/spf.py:227 | terms that do not match and no redirect come to NEUTRAL |
| `SpfBudget.AddressFamily` | auth_checker/spf.py:239-245 | an IPv6 client is looked for among AAAA answers, any other among A answers; final dots of a host name are dropped |
| `SpfSemantics.MeaningIsUnique` | auth_checker/spf.py:157-227 | the unbudgeted first-match semantics, defined without budget or evaluation order, gives a domain at most one result |
| `SpfSemantics.Sound` | auth_checker/spf.py:135-227 | an evaluation at any depth and any budget in which no lookup is refused and no depth guard is hit gives the first-match result, by a derivation that nests as deep as the recursion did |
| `SpfSemantics.LargerLimit` | auth_checker/spf.py:176-225 | if no lookup is refused, every limit that covers the lookups used gives the same code, lookups, queries and depth |
| `SpfSemantics.UnrefusedRunIsFirstMatch` | auth_checker/spf.py:135-227 | the run that check_spf starts, if no lookup is refused, returns the one first-match result, and so does every other limit that covers its lookups |
| `SpfSemantics.Sufficient` | auth_checker/spf.py:135-227 | a domain with a first-match result of bounded nesting reaches it, unrefused and nesting no deeper, from some lookup count on |
| `SpfSemantics.MeaningIffSomeBudgetSuffices` | auth_checker/spf.py:135-227 | at every nesting depth that the depth guard permits, what evaluations return under some limit, refused nothing and nesting no deeper, is exactly the first-match result derived no deeper |
| `SpfSemantics.AllStopsRedirect` | auth_checker/spf.py:163-164 | with an all term ahead, whatever redirect has been read so far has no influence |
| `SpfSemantics.RfcReading` | auth_checker/spf.py:176-185 | with an included domain without a record made an error, as in section 5.2 of RFC 7208, and all other rules kept, a policy comes to PERMERROR where such an include is reached at any depth, and to what the code gives otherwise |
| `SpfSemantics.ReadingsAgreeIffNoVoid` | auth_checker/spf.py:176-185 | the two rules give the same result exactly when no such include is reached or the code gives PERMERROR anyway |
| `Encodings.Utf8RoundTrip` | time_of_click/rewriter.py:25 | decoding the UTF-8 encoding of a string gives the string back |
| `Encodings.Base64RoundTrip` | time_of_click/rewriter.py:25 | decoding the URL-safe Base64 form (section 5 of RFC 4648) of any bytes gives the bytes back |
| `Encodings.HexPrefixes` | time_of_click/rewriter.py:18-19 | hexadecimal texts begin alike exactly as far as the bytes do |
| `Encodings.HexReadsBack` | time_of_click/rewriter.py:18-19 | each byte is read back from its two digits |
| `Encodings.Base64Vectors` | time_of_click/rewriter.py:25 | test vectors of section 10 of RFC 4648, and - and _ for the last two values |
| `Encodings.AsciiStays` | time_of_click/rewriter.py:25 | ASCII text is encoded as its own codes |
| `LinkScan.RewriteUrls` | time_of_click/rewriter.py:58-71 | the scan with its running count writes the rewriting and counts exactly its replacements |
| `LinkScan.RewriteByWord` | time_of_click/rewriter.py:59 | a text is rewritten word by word: what precedes a delimiter and what follows it do not influence each other |
| `LinkScan.RewriteOfWord` | time_of_click/rewriter.py:59 | within a word only the leftmost URL can be replaced, and it reaches to the end of the word |
| `LinkScan.UrlReaches` | time_of_click/rewriter.py:59 | a URL is http:// or https:// and the characters up to white space, an angle bracket or a quotation mark |
| `LinkScan.RewriteInParts` | time_of_click/rewriter.py:59 | a text may be cut before or behind any delimiter, and the parts are rewritten on their own |
| `LinkScan.ReplacementsAreInOutput` | time_of_click/rewriter.py:62-70 | the link made for each counted URL occurs in the output |
| `LinkIdempotence.RewriteIsIdempotent` | time_of_click/rewriter.py:62-70 | whatever the links are, if each is a delimiter-free base and a marked tail, a second pass changes nothing and counts 0 |
| `LinkIdempotence.IdempotentIffHeadSurvives` | time_of_click/rewriter.py:62-70 | for every base: a second pass changes nothing in any text exactly when a pass replaces nothing in the base up to its last delimiter, even when the beginning of a scheme precedes it |
| `LinkIdempotence.UrlHeadSurvivesIff` | time_of_click/rewriter.py:62-70 | a base that is a URL to the scan, without a marker of its own, qualifies exactly when it has no delimiter |
| `LinkIdempotence.SlashlessHeadSurvives` | time_of_click/rewriter.py:62-70 | a base without a slash before its last delimiter always qualifies |
| `LinkIdempotence.BeginningCompletesHead` | time_of_click/rewriter.py:62-70 | an input: the base //h followed by a space is no URL itself, but becomes one behind http: and does not qualify |
| `TimeOfClick.RewriteUrlsInText` | time_of_click/rewriter.py:53-71 | the text and count of the scan, or the text unchanged and 0 when text, secret or base URL is empty |
| `TimeOfClick.DecodeAndVerify` | time_of_click/service.py:21-37 | succeeds exactly for a nonempty parameter that decodes and whose signature is that of the decoded URL; the target is returned on a mismatch too |
| `TimeOfClick.LinkRoundTrip` | time_of_click/rewriter.py:22-27 | the parameters read back from the link made for any URL are accepted and decode to it |
| `TimeOfClick.SignatureIsBound` | time_of_click/service.py:21-37 | for all URLs a and b: the signature in the link made for a is accepted with b exactly when the keyed hashes of a and b begin with the same eight bytes |
| `TimeOfClick.OnlyTheMarkIsAccepted` | time_of_click/service.py:31-35 | a text is accepted as signature of a URL exactly when it is the hexadecimal form of the first eight bytes of its keyed hash |
| `TimeOfClick.LinkInFull` | time_of_click/rewriter.py:22-28 | the whole link: base without final slashes, /toc/redirect?url=, the Base64 form, &sig=, the signature |
| `TimeOfClick.RewrittenLinksRoundTrip` | time_of_click/rewriter.py:62-68 | every URL replaced in a text is in the output as a link that is accepted and decodes to it |
| `TimeOfClick.TocRewriteIsIdempotent` | time_of_click/rewriter.py:53-71 | with a base URL free of delimiter characters, rewriting any text twice is rewriting it once, and the second count is 0 |
| `TimeOfClick.TocIdempotentIff` | time_of_click/rewriter.py:53-71 | for every configured base URL: rewriting any text twice is rewriting it once exactly when the base up to its last delimiter survives a pass |
| `TimeOfClick.IdempotentIffUndelimited` | time_of_click/rewriter.py:26-27 | so, among base URLs that the scan sees as URLs without a marker of their own, exactly those without a delimiter are idempotent; all others are covered by TocIdempotentIff |
| `Defang.TextLinksAreTransduced` | delivery/modify.py:50-52 | three global replacements inside each scanned URL equal one left-to-right transducer over the whole text |
| `Defang.NothingSurvivesIffLowerCase` | delivery/modify.py:24-29 | the output has no position at which the case-insensitive URL scan matches exactly when every scheme in the input is lower-case |
| `Defang.UpperCaseSurvives` | delivery/modify.py:20-29 | HTTP://x is recognised by the scan and still matches after defanging |
| `Defang.MixedCaseSurvives` | delivery/modify.py:20-29 | any text that begins with a match whose scheme is not lower-case keeps a live match |
| `Defang.DefangIsInvertible` | delivery/modify.py:24-29 | the original URL is recoverable from its defanged form, for every URL the scan can produce |
| `Defang.DefangIsInjective` | delivery/modify.py:24-29 | different scanned URLs have different defanged forms |
| `Defang.SchemeIsNeutered` | delivery/modify.py:24-29 | http:// and https:// become hxxp[://] and hxxps[://], every dot behind them [.], and nothing else is changed |
| `Defang.UrlIsNoted` | delivery/modify.py:50-52 | in a text, a URL reaches up to white space, a quotation mark or a closing bracket, and its defanged form stands in a note in its place |
| `LineProtocol.ChunkingIsIrrelevant` | delivery/smtp_receiver.py:56-63 | for any line handler, feeding chunks one by one ends in the state of feeding their concatenation |
| `LineProtocol.LinesAreHandled` | delivery/smtp_receiver.py:56-63 | lines sent with CRLF terminators are handled one by one, in order, with nothing left over |
| `SmtpReceiver.SMTPProtocol.constructor` | delivery/smtp_receiver.py:23-49 | a fresh session that has sent its greeting |
| `SmtpReceiver.SMTPProtocol.SendReply` | delivery/smtp_receiver.py:51-54 | replies are written only while the transport is not closing |
| `SmtpReceiver.SMTPProtocol.DataReceived` | delivery/smtp_receiver.py:56-63 | the loop over the buffer handles every complete line and keeps the rest |
| `SmtpReceiver.SMTPProtocol.ReceiveLine` | delivery/smtp_receiver.py:60-63 | a complete line goes to the data handler or, decoded, to the command handler, by the mode it arrives in |
| `SmtpReceiver.SMTPProtocol.HandleCommandLine` | delivery/smtp_receiver.py:65-114 | the whole new session after each command: replies, envelope, mode, buffers |
| `SmtpReceiver.SMTPProtocol.HandleEnvelope` | delivery/smtp_receiver.py:75-96 | MAIL resets the recipients, RCPT needs a sender, DATA needs a recipient |
| `SmtpReceiver.SMTPProtocol.HandleRecipient` | delivery/smtp_receiver.py:81-87 | a recipient is refused without a sender; otherwise it joins the list, and with it every submission that was handed that list |
| `SmtpReceiver.SMTPProtocol.HandleReset` | delivery/smtp_receiver.py:98-103 | sender and buffered lines go, and the recipients get a new list that no submission has |
| `SmtpReceiver.SMTPProtocol.HandleDataLine` | delivery/smtp_receiver.py:116-130 | a lone dot dispatches the join of the buffered lines, other lines are unstuffed and counted, and an overflow refuses and empties the message |
| `SmtpReceiver.SMTPProtocol.BeginProcessing` | delivery/smtp_receiver.py:132-169 | a processing task submits the oldest waiting message with the sender it finds at that moment and with the recipient list of the session itself, which both go on sharing |
| `SmtpReceiver.SMTPProtocol.FinishProcessing` | delivery/smtp_receiver.py:170-182 | a completion replies and clears the envelope and the buffered lines, in whatever mode the session is |
| `SmtpReceiver.SessionIgnoresChunking` | delivery/smtp_receiver.py:56-63 | splitting a byte stream does not change mode, envelope, replies, dispatched messages or the leftover bytes |
| `SmtpReceiver.StuffedMessageIsDispatched` | delivery/smtp_receiver.py:116-130 | lines without CRLF, stuffed as in section 4.5.2 of RFC 5321 and within the limit, dispatch exactly their CRLF join, and the bytes after the final dot are commands |
| `SmtpReceiver.MessageInBytes` | delivery/smtp_receiver.py:56-130 | any bytes within the limit, no line of which begins with a point, followed by CR LF . CR LF, are dispatched exactly as they are, and what follows is read as commands |
| `SmtpReceiver.OversizedMessageIsRefused` | delivery/smtp_receiver.py:124-128 | the first line that passes the limit gets 552, the lines are dropped, and what follows is read as commands |
| `SmtpReceiver.RunKeepsInvariant` | delivery/smtp_receiver.py:75-130 | every interleaving of bytes and task steps keeps the session invariant |
| `SmtpReceiver.EverySessionIsSafe` | delivery/smtp_receiver.py:116-182 | in every session recipients imply a sender, buffered data stays within the counted bytes and those within the limit, and every dispatched or submitted message is within the limit |
| `SmtpCommands.MailStarts` | delivery/smtp_receiver.py:75-79 | MAIL FROM:<a>, in any letter case and with white space around <a>, makes a the sender and empties the recipients |
| `SmtpCommands.RcptAdds` | delivery/smtp_receiver.py:81-87 | RCPT TO:<a> adds exactly a at the end of the recipients if there is a sender, and is refused with 503 if not |
| `SmtpCommands.AddressIffFlush` | delivery/smtp_receiver.py:86 | the address read is a exactly when the keyword stands at the very start of the line; white space before it spoils the address, not the command |
| `SmtpCommands.ParametersJoinTheAddress` | delivery/smtp_receiver.py:76 | parameters after the address become part of it |
| `SmtpCommands.DataOpens` | delivery/smtp_receiver.py:89-96 | DATA opens an empty message if there is a recipient, and is refused with 503 if not |
| `SmtpCommands.RsetForgets` | delivery/smtp_receiver.py:98-103 | RSET forgets sender, recipients and lines |
| `SmtpCommands.QuitCloses` | delivery/smtp_receiver.py:105-108 | QUIT is answered with 221 and nothing is written afterwards |
| `SmtpCommands.NoopChangesNothing` | delivery/smtp_receiver.py:110-111 | NOOP is answered with 250 and changes nothing |
| `SmtpCommands.HeloNamesTheClient` | delivery/smtp_receiver.py:70-73 | HELO and EHLO keep the rest of the line as the name of the client |
| `SmtpCommands.OthersAreRefused` | delivery/smtp_receiver.py:66-68 | any other text is answered with 500 and changes nothing; a blank line is not answered |
| `SmtpInterleaving.DispatchedIffUninterrupted` | delivery/smtp_receiver.py:116-182 | with task steps anywhere between the lines, the final dot dispatches the join of all lines sent exactly when no task ended while lines were buffered, or the message is one blank line |
| `SmtpInterleaving.FirstPartIsLost` | delivery/smtp_receiver.py:179-182 | a task that ends between two lines: only the second is dispatched |
| `SmtpInterleaving.LinesKept` | delivery/smtp_receiver.py:116-182 | every line sent is counted; every line is buffered unless a task ended while some were, and then some are missing |
| `SmtpInterleaving.RunOfPieces` | delivery/smtp_receiver.py:56-63 | a session that receives whole lines between task steps is the line handler and the task steps applied in that order, with nothing left over |
| `SmtpInterleaving.OwnEnvelopeIffRestored` | delivery/smtp_receiver.py:132-169 | whatever lines and task steps come between a final dot and the start of its task, earlier waiting tasks included: the message is submitted under its own envelope exactly when there is no MAIL, RSET or task end in between and no recipient is accepted, or the last of them names the same sender and the RCPT commands after it name the same recipients |
| `SmtpInterleaving.EnvelopeFromLastRestart` | delivery/smtp_receiver.py:75-103 | over any sequence of commands and task ends, the last one that restarts the transaction fixes the sender, and the recipients named after it are accepted exactly when there is one |
| `SmtpInterleaving.FirstUnderSecondsEnvelope` | delivery/smtp_receiver.py:116-169 | an input: a final dot, MAIL FROM:<a>, RCPT TO:<b>, DATA and a second message in one chunk put both messages out from a to b |
| `SmtpInterleaving.RecipientsAreLive` | delivery/smtp_receiver.py:81-87 | a submitted message keeps its bytes and its sender; its recipients grow by exactly those accepted before the session starts a new list, if it was handed the current one |
| `SmtpInterleaving.RecipientsKeptIff` | delivery/smtp_receiver.py:81-87 | a submission keeps its recipients exactly when it does not share the session list, or no recipient is accepted before the next MAIL, RSET or task end |
| `Decimal.IntRoundTrip` | storage/memory.py:47-50 | parsing the decimal text of any integer gives the integer back |
| `Decimal.NotationIsDecimal` | storage/memory.py:47-50 | a digit behind a number multiplies it by ten, and a minus sign negates |
| `TimedStore.InMemoryStore.IsLive` | storage/memory.py:15-23 | liveness at the given time, deleting exactly an expired entry of that key |
| `TimedStore.InMemoryStore.Get` | storage/memory.py:25-29 | the value of a live entry |
| `TimedStore.InMemoryStore.Set` | storage/memory.py:31-34 | a ttl of 0 or none stores without expiry |
| `TimedStore.InMemoryStore.SetIfNotExists` | storage/memory.py:36-42 | stores exactly when no live entry is there |
| `TimedStore.InMemoryStore.Incr` | storage/memory.py:44-54 | a live counter keeps its expiry; a text that is no integer is a ValueError and changes nothing but expired entries |
| `TimedStore.InMemoryStore.Delete` | storage/memory.py:56-58 | removes the key, whether present or not |
| `TimedStore.StoreRefinesPlainMap` | storage/memory.py:15-58 | on a nondecreasing clock every run of operations is answered as by a timed map that never deletes an expired entry |
| `TimedStore.SetIsReadUntil` | storage/memory.py:15-34 | a value is read until its ttl has passed, for ever with ttl 0 or none, and only under its own key |
| `TimedStore.FirstClaimWins` | storage/memory.py:36-42 | of two claims of one key, the second succeeds and replaces the first exactly when the first has expired |
| `TimedStore.IncrementsCount` | storage/memory.py:44-58 | a deleted key is free, and the n-th increment of a free key answers n |
| `WindowCount.TwiceTheCap` | security/rate_limit.py:8-12 | if each of several disjoint windows admits at most the cap, any half-open interval as long as a window holds at most twice the cap |
| `RateLimit.RateLimiter.Check` | security/rate_limit.py:34-41 | each call counts once in the shared store and is refused exactly when the count passes the limit |
| `RateLimit.LimiterBounds` | security/rate_limit.py:34-41 | over every run, with other keys used in between, at most max_requests calls are accepted per window and twice that in any interval of window length |
| `RateLimit.AllowedIffRoom` | security/rate_limit.py:34-41 | after every run the next call is let through exactly when fewer than max_requests were accepted in its window |
| `RateLimit.IdentifiersAreApart` | security/rate_limit.py:35 | every identifier has a counter of its own |
| `TenantRateLimiter.TenantLimiter.CheckTenantRateLimit` | multi_tenancy/rate_limiter.py:22-38 | cleanup loop, refusal without counting, or one count more in the current minute |
| `TenantRateLimiter.CleanupKeepsLiveBuckets` | multi_tenancy/rate_limiter.py:28-31 | no count that the current minute or a later call could still ask for is dropped |
| `TenantRateLimiter.TenantBounds` | multi_tenancy/rate_limiter.py:22-38 | over every run at most the cap per minute and twice the cap in any 60 seconds, per tenant |
| `TenantRateLimiter.AdmittedIffRoom` | multi_tenancy/rate_limiter.py:22-38 | after every run a call is admitted exactly when fewer than its quota were admitted in its minute |
| `TenantRateLimiter.CleanupIsComplete` | multi_tenancy/rate_limiter.py:28-31 | no count older than two minutes is left behind |
| `Caching.AgeRoundTrip` | content_analysis/caching.py:30-41 | the integer or empty encoding of an age, unknown included, is read back as it was |
| `Caching.VerdictRoundTrip` | content_analysis/caching.py:55-63 | the NUL-separated encoding is read back as it was exactly when the verdict has no NUL |
| `Caching.AgeIsKept` | content_analysis/caching.py:26-42 | an answered age is read until its ttl has passed, an unknown one for at most 300 seconds; other domains are not affected |
| `Caching.VerdictIsKept` | content_analysis/caching.py:51-64 | a verdict is read, with its source marked as cached, until its ttl has passed, an unknown one for at most 120 seconds; other URLs are not affected |
| `Caching.KeysAreApart` | content_analysis/caching.py:27-52 | every domain and every URL has a key of its own |
| `Caching.CachedDomainAgeProvider.GetDomainAgeDays` | content_analysis/caching.py:26-42 | a live entry is answered without the provider; a miss answers what the provider says and keeps it, an unknown age for at most 300 seconds |
| `Caching.CachedDomainAgeProvider.Lookup` | content_analysis/caching.py:27-30 | hit, miss or a corrupt entry, with the expired entry gone |
| `Caching.CachedDomainAgeProvider.Fill` | content_analysis/caching.py:38-41 | what is stored and for how long |
| `Caching.CachedReputationProvider.CheckUrl` | content_analysis/caching.py:51-64 | the same for verdicts, an unknown one for at most 120 seconds; a cached source is marked as such |
| `Caching.CachedReputationProvider.Lookup` | content_analysis/caching.py:52-56 | hit or miss, with the expired entry gone |
| `Caching.CachedReputationProvider.Fill` | content_analysis/caching.py:62-63 | what is stored and for how long |
| `Caching.ReadIsRecent` | storage/memory.py:15-42 | on a nondecreasing clock, with any operations on other keys in between, a value read was stored less than its ttl ago |
| `Caching.CachedAgeIsRecentAnswer` | content_analysis/caching.py:26-42 | every cached age is an answer the provider gave less than that answer's ttl ago |
| `Caching.CachedVerdictIsRecentAnswer` | content_analysis/caching.py:51-64 | every cached verdict and source is an answer the provider gave less than that answer's ttl ago |
| `CircuitBreakers.CircuitBreaker.ObserveState` | resilience/circuit_breaker.py:54-59 | reading the state turns an open breaker half-open exactly when the timeout has passed |
| `CircuitBreakers.CircuitBreaker.RecordSuccess` | resilience/circuit_breaker.py:61-64 | success resets the breaker completely |
| `CircuitBreakers.CircuitBreaker.NoteFailure` | resilience/circuit_breaker.py:66-70 | the failure count goes up, and at the threshold the breaker opens at that time |
| `CircuitBreakers.CircuitBreaker.CallThrough` | resilience/circuit_breaker.py:72-85 | an open breaker refuses without calling; a result or an exception is recorded and passed on, and a cancellation is passed on without being recorded |
| `CircuitBreakers.CircuitBreaker.Admit` | resilience/circuit_breaker.py:72-77 | a wait is announced exactly when the observed breaker is open, and it is what is left of the timeout |
| `CircuitBreakers.CircuitBreaker.Settle` | resilience/circuit_breaker.py:78-85 | a result resets the breaker, an exception is recorded, a cancellation is not |
| `CircuitBreakers.RetryAfterIsExact` | resilience/circuit_breaker.py:74-76 | the retry_after of a refusal is positive and exact: a later call is admitted exactly when it starts that much later |
| `CircuitBreakers.PerformKeepsWellformed` | resilience/circuit_breaker.py:54-85 | from the start and after every call, an open breaker knows since when, and the failures are at the threshold exactly when it is not closed |
| `CircuitBreakers.SuccessStartsOver` | resilience/circuit_breaker.py:61-85 | after a success all failures are let through up to the threshold, and exactly the threshold-th opens the breaker |
| `CircuitBreakers.FailuresTakeTime` | resilience/circuit_breaker.py:54-85 | while no call succeeds, n failing calls, one after another and with refused or cancelled ones in between, span at least n - threshold timeouts |
| `CircuitBreakers.OutageCost` | resilience/circuit_breaker.py:72-85 | while no call succeeds, at most threshold plus length over timeout calls fail, and the upstream attempts are at most that many, plus the calls cancelled, times those of one call |
| `CircuitBreakers.CancelledTrialIsRepeated` | resilience/circuit_breaker.py:72-85 | a cancelled call that was let through leaves count and opening time alone, and the next call is let through at once |
| `Retry.WithRetry` | resilience/retry.py:50-62 | the result, the exception outside retry_on or the cancellation of the first decisive attempt, or exhaustion after exactly the allowed attempts; the time slept is the sum of the delays between attempts |
| `Retry.SleepBound` | resilience/retry.py:59-61 | with jitter the total sleep lies between the capped exponential backoff and one and a half times it |
| `Retry.BackoffDoubles` | resilience/retry.py:52-60 | the delay starts at the base and doubles with every attempt, up to the maximum |
| `Retry.GuardedCall` | resilience/circuit_breaker.py:72-85 | the breaker is asked first: refused, no attempt is made; let through, at most max_attempts attempts are one call, which returns or is cancelled exactly when its first decisive attempt does or is, and ends after its sleeps |
| `MessageQueue.AsyncMessageQueue.Enqueue` | scalability/message_queue.py:35-40 | a new task is queued last and is pending |
| `MessageQueue.AsyncMessageQueue.Dequeue` | scalability/message_queue.py:42-43 | the oldest queued task goes to the worker |
| `MessageQueue.AsyncMessageQueue.Ack` | scalability/message_queue.py:45-46 | the task is no longer pending |
| `MessageQueue.AsyncMessageQueue.Put` | scalability/message_queue.py:56 | a task waiting for room is queued last |
| `MessageQueue.AsyncMessageQueue.Nack` | scalability/message_queue.py:48-56 | one retry more, then dead-letter exactly at the limit, queue, or wait for room |
| `MessageQueue.WorkerPool.Take` | scalability/message_queue.py:97 | a worker takes a task |
| `MessageQueue.WorkerPool.HandlerSucceeds` | scalability/message_queue.py:110-111 | acknowledge and count |
| `MessageQueue.WorkerPool.HandlerFails` | scalability/message_queue.py:112-114 | count the failure and nack |
| `MessageQueue.WorkerPool.RoomForRetry` | scalability/message_queue.py:56 | a blocked retry is queued once there is room |
| `MessageQueue.WorkerPool.CancelWorker` | scalability/message_queue.py:117-118 | a cancelled worker drops what it holds or waits with, and the task stays pending |
| `MessageQueue.RunKeeps` | scalability/message_queue.py:35-120 | every interleaving keeps queue, pending, dead-letter list, workers and retry counts in agreement with where each task is |
| `MessageQueue.Conservation` | scalability/message_queue.py:35-120 | in every interleaving each enqueued task is in exactly one of queued or in flight, acknowledged, dead-letter, and dropped by a cancelled worker; the pending dictionary holds the first and the last kind, the three counts add up, and a task was dequeued at most max(1, max_retries) times, a dead one exactly so many times |
| `MessageQueue.FirstComeFirstServed` | scalability/message_queue.py:35-43 | in every interleaving no task is first handed out before an older one |
| `MessageQueue.QueueIsBounded` | scalability/message_queue.py:30-40 | over every run a bounded queue stays within its bound, and a new task is accepted exactly while it is below |
| `MessageQueue.AbandonedIffDropped` | scalability/message_queue.py:117-118 | a pending task is with nobody after a run exactly when a worker of that run was cancelled while it had the task, or it was so before |
| `MessageQueue.AbandonedForGood` | scalability/message_queue.py:94-118 | a dropped task is pending for ever: under every continuation it is not queued, held, waiting, acknowledged or dead-letter |
| `MessageQueue.InHandIffNoCancel` | scalability/message_queue.py:117-142 | all pending tasks are queued or in flight after a run exactly when no worker that had a task was cancelled in it |
| `MessageQueue.StoppedWorkerLosesTask` | scalability/message_queue.py:133-142 | an input: enqueue, dequeue and stop leave one task pending that nobody has |
| `MessageQueue.LeftAfterStep` | scalability/message_queue.py:48-56 | no step but enqueue raises the attempts left, and each dequeue uses one up |
| `MessageQueue.DequeuesAreBounded` | scalability/message_queue.py:94-120 | without new tasks the attempts left bound all further dequeues |
| `Bits.HammingCountsDifferences` | decision_engine/campaign_clustering.py:49-52 | counting the ones of the exclusive or counts the bit positions that differ |
| `Bits.HammingZero` | decision_engine/campaign_clustering.py:49-52 | distance 0 exactly for equal fingerprints |
| `Bits.HammingSymmetric` | decision_engine/campaign_clustering.py:49-52 | the distance is symmetric |
| `Bits.HammingTriangle` | decision_engine/campaign_clustering.py:49-52 | the distance satisfies the triangle inequality |
| `Bits.BitsDetermine` | decision_engine/campaign_clustering.py:42-46 | numbers of so many bits with the same bits are equal |
| `CampaignClustering.TallyVotes` | decision_engine/campaign_clustering.py:32-40 | each entry is the number of features with that bit minus the number without it |
| `CampaignClustering.ComputeSimhash` | decision_engine/campaign_clustering.py:27-46 | a bit is set exactly when at least half of the features set it; 0 without tokens |
| `CampaignClustering.VotesOfMultiset` | decision_engine/campaign_clustering.py:33-40 | the votes for a bit depend only on the multiset of feature hashes |
| `CampaignClustering.SimHashIgnoresOrder` | decision_engine/campaign_clustering.py:32-46 | equal multisets of feature hashes have equal fingerprints |
| `CampaignClustering.FeaturesOfOneMore` | decision_engine/campaign_clustering.py:30-31 | each token adds itself and its pair with the token before it to the features |
| `CampaignClustering.FingerprintHas64Bits` | decision_engine/campaign_clustering.py:32-46 | 64 bits, the highest of them decided like the others |
| `CampaignClustering.NearEntriesCount` | decision_engine/campaign_clustering.py:80-86 | the cluster size counts the entries within the distance bound |
| `CampaignClustering.LastNearEntryNames` | decision_engine/campaign_clustering.py:80-86 | the cluster is that of the latest of them |
| `CampaignClustering.CampaignClusterEngine.EvaluateAndRegister` | decision_engine/campaign_clustering.py:70-110 | although entries are pruned, size and cluster id are those computed from the whole history: one more than the earlier registrations in the last window within the distance bound |
| `RecentLog.CutEarly` | decision_engine/campaign_clustering.py:73 | entries cut at an earlier time would be cut at a later one too |
| `RecentLog.RecentIsExact` | delivery/dlp.py:67 | the cut keeps each entry of the last window as often as it occurs, and nothing else |
| `Dlp.DLPScanner.InspectOutbound` | delivery/dlp.py:63-89 | although times are pruned, a burst is reported exactly when this mail and the sender's earlier ones in the last 600 seconds of the whole history exceed the threshold; blocked from a score of 40 or on a burst |
| `Dlp.BurstIsCounted` | delivery/dlp.py:63-70 | the burst counts exactly the sender's mails of the last 600 seconds |
| `HtmlEvasion.EvasionParser.HandleStartTag` | content_analysis/html_evasion.py:58-64 | tag and parsed style are pushed together |
| `HtmlEvasion.EvasionParser.HandleEndTag` | content_analysis/html_evasion.py:66-70 | both stacks are popped, whatever the tag, and an empty stack stays empty |
| `HtmlEvasion.EvasionParser.HandleData` | content_analysis/html_evasion.py:72-92 | non-blank text is recorded under the innermost hidden entry of the style stack |
| `HtmlEvasion.EvasionParser.HandleEvent` | content_analysis/html_evasion.py:58-92 | one parser event is dispatched to its handler; only a bare style makes it fail |
| `HtmlEvasion.DetectHtmlEvasion` | content_analysis/html_evasion.py:95-123 | no finding for text without a tag; otherwise the finding for the parser events, none at all if a handler raised |
| `HidingStyles.RulesOfDeclared` | content_analysis/html_evasion.py:35-39 | cutting declarations that were written with semicolons between them gives the declarations back |
| `HidingStyles.LastDeclarationCounts` | content_analysis/html_evasion.py:35-40 | for any list of declarations, a property has the trimmed, lower-cased text behind the first colon of the last declaration that mentions it, and is absent if none does |
| `HidingStyles.DeclarationHides` | content_analysis/html_evasion.py:42-56 | each hiding property and value, anywhere in an attribute without a hiding declaration of higher rank, gives exactly its own technique |
| `HidingStyles.OtherwiseColorsDecide` | content_analysis/html_evasion.py:42-56 | without any such declaration an element is hidden exactly when its color and background color are given the same value |
| `HidingStyles.ElementIsReported` | content_analysis/html_evasion.py:95-123 | for one element with one text: the text is reported as hidden with that one technique, or as visible |
| `HidingStyles.SecondDeclarationHides` | content_analysis/html_evasion.py:35-43 | an input: color:red;display:none hides its text |
| `HidingStyles.TextsAreJoined` | content_analysis/html_evasion.py:108-109 | texts of a finding are joined by blanks |
| `HtmlEvasion.RunParser` | content_analysis/html_evasion.py:102-111 | feeding the events one by one to the parser object gives the finding of the event stream |
| `HtmlEvasion.MachineFollowsTree` | content_analysis/html_evasion.py:58-92 | on the events of any forest in which no void element or its surroundings leave a hiding style on the stack, the machine records what the inherited-style semantics of the tree says, in document order |
| `HtmlEvasion.DocumentIsClassified` | content_analysis/html_evasion.py:41-92 | for every document without a bare style, void elements included: visible text and hidden text are those of the tree exactly when no text that nothing hides comes after a node that leaves a hiding style behind, the techniques are those of the tree if no node leaves one behind, and the stacks end with one entry per void element |
| `HtmlEvasion.BalancedReadsRight` | content_analysis/html_evasion.py:63-70 | if every start tag has its end tag, no hiding style is left behind, so all of that holds |
| `HtmlEvasion.SeenAgrees` | content_analysis/html_evasion.py:72-92 | under any rule, what the machine shows and what it hides each equal the inherited-style semantics of the tree under that same condition, and it hides nothing exactly when the tree hides nothing and the condition holds |
| `HtmlEvasion.MachineIsExact` | content_analysis/html_evasion.py:58-92 | for any forest, void elements included: what is recorded, and exactly which entries are left on both stacks |
| `HtmlEvasion.VoidsShiftTheStacks` | content_analysis/html_evasion.py:63-70 | both stacks grow by one entry for each void element, so they are restored exactly when there is none |
| `HtmlEvasion.TextAfterDocument` | content_analysis/html_evasion.py:80-92 | a text that follows a document is hidden exactly when the document left a hiding style on the stack |
| `HtmlEvasion.VoidHidesVisibleText` | content_analysis/html_evasion.py:66-70 | a br in a hidden div makes the machine hide the text after the div, which no ancestor hides |
| `HtmlEvasion.AlwaysSane` | content_analysis/html_evasion.py:58-92 | on arbitrary, unbalanced streams the two stacks keep equal length, recorded text is stripped and nonempty, and hidden text and techniques go together |
| `HtmlEvasion.EvasionIffHiddenText` | content_analysis/html_evasion.py:108-111 | evasion is reported exactly when some hidden text was recorded |
| `HtmlEvasion.BareStyleHidesEverything` | content_analysis/html_evasion.py:59-61 | a style attribute without a value anywhere in an event stream suppresses the finding for the whole document |
| `HtmlEvasion.ReportedIffHiddenOrMisread` | content_analysis/html_evasion.py:58-111 | for every document: evasion is reported exactly when no style is bare and some text has a hidden ancestor or some shown text comes after a hiding leftover |
| `HtmlEvasion.HiddenButNotReported` | content_analysis/html_evasion.py:59-61 | a hidden div next to a p with a bare style is not reported |
| `HtmlEvasion.OffScreenNeedsColon` | content_analysis/html_evasion.py:50-51 | a style is off-screen only if the value of left or top contains a colon, as no length does |
| `HtmlEvasion.NegativeLeftIsNotHidden` | content_analysis/html_evasion.py:50-51 | an absolute position with left at -9999px hides nothing |
| `HtmlEvasion.RepeatedLeftIsHidden` | content_analysis/html_evasion.py:50-51 | a left value that repeats the property name is off-screen |
| `Scorer.Decide` | decision_engine/scorer.py:27-113 | a threshold error exactly for thresholds out of order; otherwise the action, weighted stages and reported total, with block and allow rules and the malware override |
| `Scorer.ScoreDecides` | decision_engine/scorer.py:36-109 | a block rule quarantines and an allow rule forwards unless a weighted stage is at 100; otherwise quarantined exactly when weighted sum, feedback and boosts reach the upper threshold in force, and forwarded exactly when they are below the lower one |
| `Scorer.DefaultThresholds` | decision_engine/scorer.py:23-24 | without tenant, rules, VIP, campaign and feedback: quarantined exactly from 70 on, forwarded exactly below 30 |
| `Scorer.EffectiveQuarantineMonotone` | decision_engine/scorer.py:39-48 | more VIP involvement never raises the quarantine threshold, which stays above the warning one |
| `Scorer.DecisionIsMonotone` | decision_engine/scorer.py:39-113 | raising stage scores, VIP or campaign results or feedback under the same policy never weakens the action |
| `Scorer.MalwareIsNeverForwarded` | decision_engine/scorer.py:87-111 | a stage at 100 with weight 1 is not forwarded, whatever feedback within its bounds and whatever allow rule |
| `FeedbackLoop.FeedbackLoopEngine.RecordFeedback` | decision_engine/feedback_loop.py:27-47 | the record is appended, and the saturated score of its domain agrees with the whole history |
| `FeedbackLoop.FeedbackLoopEngine.GetDomainAdjustment` | decision_engine/feedback_loop.py:49-51 | the adjustment that the history of that domain gives, within [-40, 50] |
| `FeedbackLoop.ReputationIsBounded` | decision_engine/feedback_loop.py:38-45 | over every feedback history the adjustment stays within [-40, 50] |
| `FeedbackLoop.FeedbackAddsUp` | decision_engine/feedback_loop.py:38-45 | n releases of a domain give max(-15 n, -40), n rejects min(15 n, 50) |
| `FeedbackLoop.OtherFeedbackChangesNothing` | decision_engine/feedback_loop.py:38-45 | feedback of another domain or kind changes nothing |
| `FeedbackLoop.DomainIsRead` | decision_engine/feedback_loop.py:28 | the domain is what follows the last @, in lower case |
| `FeedbackLoop.FeedbackCannotReleaseMalware` | decision_engine/scorer.py:62-66 | under the 30 and 70 thresholds no feedback history gets a stage at 100 forwarded |
| `Delivery.Deliver` | delivery/pipeline.py:17-100 | the sends, the quarantine files and the reported outcome are exactly those of the plan for the decision; a mirror that fails is swallowed, a cancelled one is not |
| `Delivery.RelayMain` | delivery/pipeline.py:79-85 | dry run without a relay, otherwise one attempt at the recipients and its outcome; only a relay error is reported, others escape |
| `Delivery.Hold` | delivery/pipeline.py:54-60 | the original bytes and a pending record are stored before the notifier is called |
| `Delivery.NoBlindDrop` | delivery/pipeline.py:54-100 | outside tag-only mode a message is held exactly when it must be; any other is attempted once at the recipients exactly when there is a relay and the task is not cancelled while mirroring, and run dry exactly when there is no relay; when cancelled there, it is neither sent nor held |
| `Delivery.TagOnlyHoldsNothing` | delivery/pipeline.py:35-43 | in tag-only mode nothing is held: the tagged message goes to the recipients, or writing it raised |
| `Delivery.HeldRecordDescribes` | delivery/pipeline.py:54-77 | the record of a held message has its envelope, score and action, and the reasons, with the reason of an escalation added |
| `Delivery.ScoreDecidesFate` | delivery/pipeline.py:17-100 | from score to wire, without a rule and outside tag-only mode: at the upper threshold a message is held and not sent, below the lower it is sent as it came, in between only in its stripped form |
| `Delivery.NeverRelayedUnmodified` | delivery/pipeline.py:35-100 | a message that was not cleared leaves only as its rewriter made it and only to its recipients; only cleared mail is mirrored |
| `Delivery.ReportIsTrue` | delivery/pipeline.py:35-100 | the outcome reported says whether the message was held, refused by the relay, or taken |
| `Delivery.MirrorHarmsOnlyWhenCancelled` | delivery/pipeline.py:87-92 | a mirrored message has the plan of an unmirrored one with the mirror send in front exactly when the mirror attempt is not cancelled; a refused or failed mirror changes nothing else |
| `Delivery.HoldIsAQuarantineRun` | delivery/pipeline.py:54-77 | a held message becomes pending in the quarantine, which stays consistent, and its original bytes can be read back |
| `Delivery.EveryMessageIsAccountedFor` | delivery/pipeline.py:35-100 | over every run of deliveries, releases and rejections outside tag-only mode, posted messages are those attempted at the relay, those in quarantine, the dry runs and those cancelled while mirrored, each counted once; whatever had to be held can be read back byte for byte and is pending until resolved; every send is traced |
| `Delivery.SendsAreTraced` | delivery/pipeline.py:35-100 | every send of a run was made for a posted message, from its sender, to its recipients or as its mirror, and carries what may leave for it |
| `Delivery.MalwareLeavesOnlyStripped` | delivery/pipeline.py:62-85 | from score to wire: with a stage at 100 every copy that leaves has been through the stripper, and without a usable rewriting the message is held |
| `QuarantineStores.QuarantineStore.WriteMessage` | delivery/quarantine.py:66 | the encrypted message file |
| `QuarantineStores.QuarantineStore.WriteRecord` | delivery/quarantine.py:67 | the metadata file, written after the message |
| `QuarantineStores.QuarantineStore.Store` | delivery/quarantine.py:43-68 | both files under one id, all others unchanged |
| `QuarantineStores.QuarantineStore.GetRawMessage` | delivery/quarantine.py:76-80 | the decrypted message file, or None |
| `QuarantineStores.QuarantineStore.FirstFile` | delivery/quarantine.py:87 | the first of some metadata files in name order |
| `QuarantineStores.QuarantineStore.ListPending` | delivery/quarantine.py:85-94 | exactly the pending records with their ids, each once, in the order of their file names |
| `QuarantineStores.QuarantineStore.Resolve` | delivery/quarantine.py:96-106 | an existing record is marked, an unknown id changes nothing |
| `QuarantineStores.QuarantineStore.Release` | delivery/quarantine.py:108-113 | marks released and returns the record so marked; the message file stays |
| `QuarantineStores.QuarantineStore.Reject` | delivery/quarantine.py:115-116 | marks rejected and returns the record so marked; the message file stays |
| `QuarantineStores.RunKeeps` | delivery/quarantine.py:65-106 | every interleaving of the two halves of stores with resolutions keeps messages, records and resolutions consistent |
| `QuarantineStores.NothingIsLost` | delivery/quarantine.py:43-116 | over every run the original bytes of each item stay retrievable, no record exists without its message, pending is exactly stored minus resolved, and a resolved record still describes its item |
| `QuarantineStores.ResolutionIsKept` | delivery/quarantine.py:96-106 | after every later run a resolved record has exactly the status, name, note and time of its last resolution, and is otherwise as it was |
| `QuarantineStores.LexByFirstDifference` | delivery/quarantine.py:87 | file names are ordered by the first character in which they differ |
| `TenantManagers.TenantManager.CreateTenant` | multi_tenancy/tenant_manager.py:22-59 | refused exactly when the id exists; otherwise the tenant is registered and its lower-cased domains are claimed, from other tenants too |
| `TenantManagers.TenantManager.UpdateTenant` | multi_tenancy/tenant_manager.py:84-105 | refused exactly for an unknown id; domains given are exchanged, and only existing settings with a value change |
| `TenantManagers.TenantManager.DeprovisionTenant` | multi_tenancy/tenant_manager.py:107-128 | the tenant goes together with its own index entries; those claimed by others stay |
| `TenantManagers.TenantManager.GetTenantByDomain` | multi_tenancy/tenant_manager.py:64-82 | the owner of the name in an address or bare domain, else the owner of its parent when that has a dot |
| `TenantManagers.TenantManager.DisclaimAll` | multi_tenancy/tenant_manager.py:93-95 | the loop removes exactly the entries that still belong to the tenant |
| `TenantManagers.RunKeepsIndex` | multi_tenancy/tenant_manager.py:36-119 | after every run each index entry points to a registered tenant that lists the domain |
| `TenantManagers.IndexIsHistory` | multi_tenancy/tenant_manager.py:55-119 | after every run the index says of each domain what following that one domain through the operations says |
| `TenantManagers.LookupIsHome` | multi_tenancy/tenant_manager.py:64-82 | after every run a lookup finds only a registered tenant with a nonempty id that lists the name or its parent |
| `TenantManagers.OffboardedIsNeverFound` | multi_tenancy/tenant_manager.py:107-119 | an offboarded tenant is not found under any name until it is created anew |
| `TenantManagers.ClaimIsFound` | multi_tenancy/tenant_manager.py:54-72 | a name just claimed answers to its new tenant exactly when the id is nonempty |
| `TenantManagers.ClaimIsFoundInAnyCase` | multi_tenancy/tenant_manager.py:54-72 | a domain just claimed is found in any letter case, alone or in an address |
| `TenantManagers.ParentAnswers` | multi_tenancy/tenant_manager.py:73-82 | a name nobody has answers to the owner of its parent exactly when the parent has a dot |
| `TenantManagers.NameIsRead` | multi_tenancy/tenant_manager.py:65-70 | the name looked up is what follows the last @, in lower case and without white space around it |
| `TenantManagers.SettingsAreChanged` | multi_tenancy/tenant_manager.py:97-103 | an update changes the settings it names and the tenant has, and no other |
| `TenantManagers.CompleteIffNoOrphan` | multi_tenancy/tenant_manager.py:90-119 | an operation keeps every domain that a registered tenant lists in the index exactly when it gives up none that another registered tenant lists too |
| `TenantManagers.AlwaysCompleteIffNoOrphan` | multi_tenancy/tenant_manager.py:36-119 | all along a run every listed domain is in the index exactly when no operation of it gives up a domain that another tenant lists at that time |
| `TenantManagers.TakenDomainIsLost` | multi_tenancy/tenant_manager.py:113-117 | an input that loses one: a domain taken over is mapped to nobody once the taker leaves, although the first tenant still lists it |

## Left out

- Defang.NothingSurvivesIffLowerCase: letter case is folded for ASCII and for the long s that folds to s; other Unicode case pairs have no part in these patterns.
- Typosquat.FindTyposquatTarget: the registrable label is a function parameter, since the public suffix list is not part of this model; letter case is folded for ASCII only.
- CtMonitor.CTLogMonitor.ProcessCtLogEntry: letter case is folded for ASCII only; the JSON answers of the log search are not modelled.
- Spf.Evaluate: macro expansion and the network test are total functions of their inputs, and the resolver answers the same question the same way throughout one check.
- TimeOfClick.LinkRoundTrip: the signature is any function of secret and URL that yields hexadecimal digits; strings with lone surrogates, which cannot be encoded, are outside the model.
- SmtpReceiver.SMTPProtocol.HandleCommandLine: command words are folded for ASCII only.
- SmtpReceiver.SMTPProtocol.BeginProcessing: MIME parsing is a yes or no, and the reply of the processor is a parameter; the processor does not change the recipient list it is handed.
- TimedStore.StoreRefinesPlainMap: each operation is one step, as the source holds its lock throughout; the Redis store is not modelled.
- TimedStore.InMemoryStore.Incr: the text forms that `int` accepts are modelled for ASCII digits.
- RateLimit.LimiterBounds: the window is positive, since a window of 0 means that the counter never expires.
- Caching.CachedAgeIsRecentAnswer: entries have a positive ttl, since 0 means that they never expire; the same holds for Caching.CachedVerdictIsRecentAnswer.
- CircuitBreakers.FailuresTakeTime: calls do not overlap; with overlapping calls a late success closes the breaker early.
- CircuitBreakers.OutageCost: the breaker does not see cancelled calls, so their number is part of the bound and not bounded itself.
- Retry.WithRetry: a cancellation arrives during an attempt; one that arrives during the sleep between two attempts is not modelled.
- MessageQueue.Conservation: tasks are told apart by their index; their payload and error text, and the timeout of a dequeue that finds nothing, are not modelled.
- CampaignClustering.CampaignClusterEngine.EvaluateAndRegister: the fingerprint is given, and its computation from tokens is CampaignClustering.ComputeSimhash; splitting text into tokens, and the hash that makes a cluster id, are not modelled.
- Dlp.DLPScanner.InspectOutbound: the score of the content patterns is a parameter.
- HtmlEvasion.DetectHtmlEvasion: the tokenizer is a function from HTML to the events of its parser; the explanation text is not modelled, and techniques are a set, which the source sorts.
- HtmlEvasion.DocumentIsClassified: the techniques are stated for documents that leave no hiding style behind; streams that are no tree at all are covered by HtmlEvasion.AlwaysSane only.
- Scorer.Decide: stage weights are exact rationals truncated toward zero, without floating-point rounding; reasons, explainability report, shadow evaluation and the VIP and campaign details attached to the decision are not modelled.
- Delivery.Deliver: the detail texts of the result are not modelled; neither is a disk failure or a cancellation while a message is being stored.
- Delivery.EveryMessageIsAccountedFor: covers runs outside tag-only mode, where the rule against blind drops applies; sending a released message on to its recipients is done by callers of the quarantine and is not modelled.
- QuarantineStores.QuarantineStore.ListPending: unreadable metadata files, which the source skips, do not occur.
- QuarantineStores.NothingIsLost: identifiers are never drawn twice, and the cipher decrypts what it encrypted.
- TenantManagers.TenantManager.UpdateTenant: settings are texts by name, and the caller cannot reach a tenant through an object it was handed earlier; purging the storage directory is not modelled.
- Rewriting of links in HTML, attachment stripping, subject warnings and tagging of messages.
- DKIM, ARC, BIMI, FCrDNS, DNSSEC and DNSBL checks: foreign cryptography and live DNS.
- HTTP routes, webhook parsers, mailbox clients, the relay socket, notifiers, databases and pools.
- Keyword lists, learned scores, OCR and QR codes, brand markers, magic bytes and dictionaries: tables.
- Roles, autoscaling, topology, key rotation, residency, retention and one-time passwords: easy members.
- User interface, translations, metrics, tracing, backups and test harnesses.
