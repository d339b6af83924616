# Sender Report: a verified model

Sender Report receives test mails over SMTP, evaluates SPF, DKIM and DMARC for
them, writes its findings into header lines, analyses the message and stores a
scored report. This project models the parts of it where state, recursion or
interleaving make the behaviour hard to see, and proves what they promise.

* **SPF** (`Spf*.dfy`). `SpfRecord` takes the TXT records of a domain apart;
  `SpfModel` is the evaluation as mutually recursive functions over an arbitrary,
  possibly cyclic graph of records, with lookup counter, depth and set of domains
  in progress; `SpfEvaluator` is the same as a class whose counter and set are
  updated in place. Proved: the interplay of the three bounds at every call, the
  budget shift, that loop detection never changes a verdict, first-match semantics,
  that the evaluator computes an unbounded reference meaning whenever that fits
  into ten lookups and permerror in every other case, and when that is the code the
  standard asks for.
* **Receiver headers** (`Header*.dfy`, `ReceiverHeaders`, `OwnHeaderLemmas`,
  `AuthResultsReading`). Printing and stripping of the six receiver lines as loops
  over text, with folding and line ends. Proved: exactly which messages survive
  prepend and strip unchanged, what is left of every other one, that TLS is
  remembered, that any number of re-verifications equals one enrichment with the
  latest results, and exactly when the TLS flag and the results read back are the
  true ones.
* **Task runner** (`TaskRunner`). Semaphore, wait group, panics and ordered
  collection as interleaved steps; theorems over every interleaving.
* **SMTP** (`Smtp*.dfy`). DATA framing with its round trip, and the command loop
  from the bytes of a connection, with theorems over every sequence of rounds that
  say exactly which mails are handed over.
* **Rate limiter** (`RateLimiter*.dfy`). The map of slices with in-place
  compaction and a shared backing array; theorems over every series of calls.
* **Base32** (`Base32`). The browser's bit packer with a 32-bit accumulator that
  is never masked, against the definition in section 6 of RFC 4648.
* **Placement tests** (`Placement*.dfy`). Pollers, channel and collector as
  interleaved steps, and the event stream.
* **Store** (`Store*.dfy`). Tables with cascades beside cumulative counters, as a
  class and as a state machine over every run.
* **Scoring** (`Scoring`). The overall score and re-checks that can only confirm
  that a record exists.

Where a loop or an object of the program updates state step by step, a method or
class does so here, and its postcondition ties it to a function; the theorems are
about those functions. `Text` and `TextLemmas` hold the string functions of Go's
library that the code uses, and their laws.

DNS, the clock, DKIM and DMARC results, IMAP, TLS handshakes and the answer of the
recipient check are parameters. `dafny verify dfyconfig.toml` checks everything.

Where the code does not do what its documentation or a standard asks for, the
model follows the code, gives the input, and proves when the two agree: an include
or redirect to a domain without a record (`SpfStrict`); a message without a blank
line, which stripping does not restore (`HeaderTheorems.StripUndoesPrepend`); a
greeting that contains the words for TLS (`HeaderReverify.ReverifyTellsTheTruth`)
or a result (`AuthResultsReading.OwnResultsAreRead`); and a re-check from a client
that does not send the status it replaces (`Scoring.BlindRecheckNeverRaises`).

## Model

| member | source | states |
|---|---|---|
| SpfEvaluator.FindRecord | cmd/sender-report/auth.go:394-417 | one pass over the TXT texts finds the only SPF record, none, or more than one |
| SpfTerms.DirectiveStandsFor | cmd/sender-report/auth.go:427-516 | a written term with its qualifier, with or without value and prefix length: a, mx, exists and ptr compare and cost a lookup, ip4 and ip6 compare and cost none, include and all are what they say, any other name is no match |
| SpfPrinting.UnmarkedMeansPass | cmd/sender-report/auth.go:365-376 | a directive without qualifier stands for pass |
| SpfPrinting.BareRoundTrip | cmd/sender-report/auth.go:537-556 | a mechanism without value, such as all or a/24, is read back with its qualifier and prefix length |
| SpfPrinting.RedirectRoundTrip | cmd/sender-report/auth.go:354-357 | redirect= followed by a domain is read as a redirect to that domain |
| SpfTerms.ModifierIsIgnored | cmd/sender-report/auth.go:358-363 | every modifier but redirect= is passed over |
| SpfTerms.LookupsAreCounted | cmd/sender-report/auth.go:427-433 | a published record of n terms a, mx, exists or ptr, none of which matches, followed by +all: pass for n up to ten, permerror for more |
| SpfTerms.AnswersDecide | cmd/sender-report/auth.go:394-417 | a failed lookup is temperror, no SPF text is none, two SPF texts are permerror |
| SpfTerms.DomainIsNormal | cmd/sender-report/auth.go:322-325 | blanks around a domain and letter case do not matter |
| SpfModel.CheckDomain | cmd/sender-report/auth.go:318-392 | every nested visit is paid for by a lookup, the counter never falls and ends at eleven at most, and passing the budget means permerror |
| SpfModel.EvaluateTerms | cmd/sender-report/auth.go:379-391 | the same for a record with its redirect |
| SpfModel.ScanTerms | cmd/sender-report/auth.go:348-377 | the same for the token loop: passing the budget decides the record with permerror |
| SpfTheorems.CheckVisits | cmd/sender-report/auth.go:318-331 | from any coherent state, every nested check is coherent: seen is the set of ancestors, depth is its size and at most the counter; an error returned at any level is the final result |
| SpfTheorems.EvaluationBounds | cmd/sender-report/auth.go:298-331 | one evaluation: depth = size of seen ≤ counter ≤ 10 at every visit, so the depth limit is unreachable; at most 11 record fetches; final counter at most 11, and 11 only with permerror |
| SpfTheorems.ShiftCheck | cmd/sender-report/auth.go:370-391 | a check that starts with more lookups spent gives the same result, detail and number of further lookups, or permerror, with or without loop detection |
| SpfTheorems.BudgetShift | cmd/sender-report/auth.go:427-433 | the same from the top level, for every number of lookups spent before |
| SpfTheorems.ReentryIsPermError | cmd/sender-report/auth.go:329-331 | a check of a domain inside a check of the same domain ends in permerror even without loop detection |
| SpfTheorems.LoopDetectionKeepsVerdict | cmd/sender-report/auth.go:318-392 | for every DNS and domain, evaluation with and without the seen check returns the same code |
| SpfFirstMatch.DeciderDecides | cmd/sender-report/auth.go:370-377 | the first term that matches or errs gives the verdict, and the terms after it can be replaced by any others |
| SpfFirstMatch.FirstMatch | cmd/sender-report/auth.go:348-377 | a record is decided exactly when some term decides, and there is only one such term |
| SpfFirstMatch.RedirectOnlyWhenUndecided | cmd/sender-report/auth.go:379-391 | a redirect is left only when nothing decided, goes to the last target named, and never survives an all |
| SpfMeaning.CheckMeaning | cmd/sender-report/auth.go:318-392 | from any counter, a check returns the unbounded meaning and its cost when that fits the budget, and permerror otherwise |
| SpfMeaning.EvaluatorReturnsMeaning | cmd/sender-report/auth.go:306-449 | with counter, depth and loop detection, the code is the unbounded meaning of the domain when that takes at most ten lookups, permerror otherwise |
| SpfStrict.AgreesWithStandard | cmd/sender-report/auth.go:435-449 | the code sections 5.2 and 6.1 of RFC 7208 ask for is permerror where an include or redirect on the way names a domain without a record, and the evaluator's code everywhere else |
| SpfStrict.MissingIncludeDiffers | cmd/sender-report/auth.go:440-449 | the published record v=spf1 include:b +all with nothing at b: pass here, permerror by the standard |
| SpfEvaluator.Evaluator.CheckDomain | cmd/sender-report/auth.go:318-392 | the method on shared counter and set returns the modelled verdict and restores the set on every path |
| SpfEvaluator.Evaluator.EvaluateRecord | cmd/sender-report/auth.go:333-391 | record fetch, token loop and redirect compute the modelled verdict, counter and visits |
| SpfEvaluator.Evaluator.ScanTokens | cmd/sender-report/auth.go:348-377 | the token loop computes the left-to-right scan of the classified terms |
| SpfEvaluator.Evaluator.MatchMechanism | cmd/sender-report/auth.go:419-449 | budget check, all, include and the comparing mechanisms give the modelled answer and counter |
| SpfEvaluation.EvaluateSpf | cmd/sender-report/auth.go:298-311 | the sender domain, HELO as a fallback, none without domain or address, otherwise the bounded meaning of the domain, with the deciding term as detail |
| SpfEvaluation.SenderDomainIs | cmd/sender-report/auth.go:650-660 | the sender domain is what stands behind the last at sign of the envelope sender, with or without brackets, in lower case, and the greeting without one |
| SpfReport.RecordSpf | cmd/sender-report/auth.go:73-92 | from the evaluation into the header and back: for spf the analyzer reads pass exactly when the delivery deserves pass, and so for every other code, unless the host name tells a result |
| SpfReport.NamesTellCodes | cmd/sender-report/auth.go:635-648 | the names of the seven codes are different words, so the name read tells the code |
| HeaderSurgery.PrependHeaders | cmd/sender-report/auth.go:134-166 | the loop builds the cleaned headers in front of the header part, with CRLF line ends |
| HeaderSurgery.StripReceiverHeaders | cmd/sender-report/auth.go:704-744 | the loops unfold header blocks, drop this host's and put the rest together |
| HeaderSurgery.SiftBlocks | cmd/sender-report/auth.go:715-738 | own result headers are dropped always, Received once, and its TLS word is noted |
| ReceiverHeaders.SafeAuthValue | cmd/sender-report/auth.go:168-177 | a value made safe holds no semicolon and no line break |
| HeaderRoundTrip.OwnHeadersAreOwn | cmd/sender-report/auth.go:73-132 | for a single-token host and any values, each of the six lines stays one header block and is recognised as this host's |
| HeaderContents.OwnHeadersCarry | cmd/sender-report/auth.go:34-47 | the six lines in order, by name and words: the route with the protocol, the results, the SPF result with client address, sender and HELO, and each of the three details |
| AuthResultsReading.OwnValueIsWritten | cmd/sender-report/auth.go:73-92 | the results line is the value the analyzer reads, under its name |
| HeaderText.TestsAreExact | cmd/sender-report/auth.go:720-734 | which blocks are this host's, told by their words: X-Sender-Report lines, results whose first word is the host, Received-SPF that names it as receiver, Received with by, the host and with next to each other |
| HeaderText.OthersStay | cmd/sender-report/auth.go:725-726 | the Authentication-Results of another host are not this host's |
| HeaderText.StripExactly | cmd/sender-report/auth.go:704-744 | for every message, stripping leaves all blocks but this host's result headers and its first Received, byte for byte and in order, with the body; the flag is what that Received tells |
| HeaderRoundTrip.ForeignShorter | cmd/sender-report/auth.go:715-738 | removal of own headers keeps the blocks exactly when none is own, and otherwise the text gets shorter |
| HeaderTheorems.StripEnriched | cmd/sender-report/auth.go:704-744 | what is left of every message with a blank line after prepending and stripping, including folded and empty first lines |
| HeaderTheorems.WithoutBlankLineChanged | cmd/sender-report/auth.go:134-166 | a message without a blank line is never restored |
| HeaderTheorems.StripUndoesPrepend | cmd/sender-report/auth.go:704-744 | stripping gives back the message if and only if it has CRLF line ends, a blank line, and headers that are empty or start unfolded and hold no result header of this host |
| HeaderText.RestoredExactly | cmd/sender-report/auth.go:704-744 | the same with the condition told by the words of the headers |
| HeaderTls.TlsIsRecorded | cmd/sender-report/auth.go:105-121 | the Received line is read back as TLS if and only if the delivery used it or HELO, address, recipient or date themselves contain the word with before a word that starts with ESMTPS |
| HeaderTls.WordsDoNotMislead | cmd/sender-report/auth.go:105-121 | single words never do, so the flag is right for a HELO without blanks |
| HeaderTls.HeloCanClaimTls | cmd/sender-report/auth.go:729-733 | a client without TLS that greets with x with ESMTPS is recorded as one with TLS |
| HeaderReverify.ReverifyReceiverAuth | cmd/sender-report/auth.go:749-755 | strip, remember TLS, evaluate the clean text and prepend |
| HeaderReverify.ReverifyReplaces | cmd/sender-report/auth.go:749-755 | re-verifying an enriched message is enriching the original afresh, with the flag the old Received line said, for all values of HELO and recipient |
| HeaderReverify.ReverifyAllReplaces | cmd/sender-report/auth.go:34-47 | any number of re-verifications equals one enrichment of the original with the latest results, and with TLS if any earlier line said so |
| HeaderReverify.ReverifyTellsTheTruth | cmd/sender-report/auth.go:749-755 | that text is the one a truthful memory of TLS would write if and only if some delivery used TLS or none of the earlier lines misleads |
| HeaderReverify.GreetingBecomesTls | cmd/sender-report/auth.go:749-755 | after a greeting x with ESMTPS on a plain connection, a re-check writes a different text, one that claims TLS |
| HeaderReverify.ReverifyFresh | cmd/sender-report/auth.go:704-755 | the same for a message that was never enriched |
| HeaderSettling.HeadersInFront | cmd/sender-report/auth.go:146-154 | a blank header adds nothing, and any other is put in its place, trimmed and with plain line ends |
| HeaderSettling.PrependCompletes | cmd/sender-report/auth.go:134-166 | prepending treats a message without a blank line as the one with the blank line added |
| HeaderSettling.SettleOnce | cmd/sender-report/auth.go:704-744 | what one round leaves of a message is restored by every further one, unless its header part is blank but not empty |
| HeaderSettling.SettleTwice | cmd/sender-report/auth.go:704-744 | what two rounds leave of a message is restored in every case |
| HeaderSettling.ReverifySettles | cmd/sender-report/auth.go:749-755 | for every message at all, a re-check enriches what the message settles to, with the flag the old line said |
| HeaderSettling.ReverifyAllSettles | cmd/sender-report/auth.go:749-755 | for every message at all, two or more re-checks equal one enrichment, with the latest results, of the text it settles to in two rounds; one round is enough exactly when that text is restored |
| AuthResultsReading.ReadingSplits | internal/analyzer/analyzer.go:3647-3654 | what is read for a key from a text with a separator is what is read before it, or else what is read after it |
| AuthResultsReading.OwnResultsAreRead | internal/analyzer/analyzer.go:367-377 | for any host and domains, and whatever headers follow, the analyzer reads the first of what host, SPF domain and DKIM domain tell for the key and the result written; it is the result written if and only if those tell nothing or the same |
| AuthResultsReading.PlainDomainsTellNothing | internal/analyzer/analyzer.go:3647-3654 | domains without blanks, of a host without an equals sign, tell nothing, so all three results are read as written |
| AuthResultsReading.GreetingTellsDkim | cmd/sender-report/auth.go:298-302 | a sender without a domain and the greeting x dkim=pass: the dkim result none is read as pass |
| TaskRunner.EveryTaskHasItsPart | internal/analyzer/analyzer.go:1079-1097 | in the output of every finished run each task has its own part in task order: what it returned, or exactly one error check for a panic |
| TaskRunner.NextInv | internal/analyzer/analyzer.go:1071-1098 | every step keeps semaphore, wait group, phases and slots consistent |
| TaskRunner.EveryMoment | internal/analyzer/analyzer.go:1071-1098 | in every interleaving at most limit tasks run at once, eight without a limit; on return all are finished and the output is their results in task order |
| TaskRunner.LimitIsReached | internal/analyzer/analyzer.go:1076-1082 | some run has as many tasks running as the limit, or the tasks, allow |
| TaskRunner.SomeStepEnabled | internal/analyzer/analyzer.go:1076-1092 | no deadlock: until the runner returns some step is possible |
| TaskRunner.EveryRunEnds | internal/analyzer/analyzer.go:1071-1098 | every run is finite, and one that cannot go on has returned |
| TaskRunner.Collect | internal/analyzer/analyzer.go:1093-1097 | the final loop concatenates the slots in order |
| SmtpData.ReadData | internal/smtp/server.go:246-265 | the reading loop computes the line-by-line reading |
| SmtpData.StuffingRoundTrip | internal/smtp/server.go:246-265 | a dot-stuffed message with its terminator is read back exactly, the reader stops right after the terminator, and reading fails exactly when the message is over the limit |
| SmtpCrlf.CrlfRoundTrip | internal/smtp/server.go:246-265 | a message stuffed only after CRLF, as section 4.5.2 of RFC 5321 has it, is read back if and only if no line behind a bare LF is a single dot or starts with two, and it is within the limit |
| SmtpCrlf.BareDotIsSent | internal/smtp/server.go:246-265 | a line that ends in a bare LF and a single dot behind it are sent without stuffing |
| SmtpCrlf.BareDotCuts | internal/smtp/server.go:253-255 | they are read as a message that ends at the dot, and the terminator of the message is left for the command loop |
| SmtpSession.Deliver | internal/smtp/server.go:191-206 | one mail for each recipient, none without a handler |
| SmtpConnection.RoundConsumes | internal/smtp/server.go:119-160 | every round consumes input or switches to TLS, which happens once, so a connection ends |
| SmtpConnection.HandleCommand | internal/smtp/server.go:130-223 | one command changes session and input as modelled and hands over its mails; DATA gives back what it did not read, and after STARTTLS only what came over TLS is read |
| SmtpConnection.HandleConnection | internal/smtp/server.go:114-225 | from the bytes of a connection, the loop hands over exactly the mails of its sequence of rounds |
| SmtpConnection.DataRound | internal/smtp/server.go:180-207 | the message sent stuffed behind an accepted DATA is read as it was, and the next command is read right behind the terminator |
| SmtpConnection.RefusedData | internal/smtp/server.go:181-184 | without sender or recipient DATA reads nothing |
| SmtpConnection.SwitchRound | internal/smtp/server.go:139-160 | a successful STARTTLS forgets the session and what was sent in the clear behind it |
| SmtpConnection.EndingRounds | internal/smtp/server.go:214-223 | QUIT and the end of input end the connection, NOOP and unknown commands change nothing |
| SmtpConnection.DialogueDelivers | internal/smtp/server.go:114-225 | from the bytes of a plain EHLO, MAIL, RCPT, DATA dialogue, exactly that mail is handed over |
| SmtpCommands.PathInBrackets | internal/smtp/server.go:231-244 | what stands between angle brackets is the path, whatever parameters follow |
| SmtpCommands.PathIsCut | internal/smtp/server.go:240-243 | a path without blanks is kept in lower case, and one followed by a blank is cut there |
| SmtpCommands.PathWithoutBrackets | internal/smtp/server.go:231-244 | a path without brackets is read as it is, in lower case |
| SmtpCommands.EnvelopeLine | internal/smtp/server.go:162-168 | MAIL FROM and RCPT TO in any letter case name the path in the brackets |
| SmtpCommands.AloneLine | internal/smtp/server.go:180-217 | DATA, RSET, STARTTLS, NOOP and QUIT in any letter case, with a line end, are those commands |
| SmtpCommands.GreetingIsKept | internal/smtp/server.go:131-133 | EHLO and HELO in any letter case name whatever stands behind them, blanks included |
| SmtpTheorems.SessionIsExplained | internal/smtp/server.go:114-225 | in every sequence of rounds, an open session is on TLS exactly when it was switched, and knows a sender, recipient or greeting exactly when a round gave it (a recipient only if allowed) and no later MAIL FROM, RSET, greeting or switch to TLS has undone it |
| SmtpTheorems.DeliveredExactly | internal/smtp/server.go:180-206 | a mail is handed over in a round if and only if DATA reads its bytes, its non-empty sender and its allowed recipient are in force, its TLS flag says whether the handshake happened, and its HELO is the one in force |
| SmtpTheorems.DeliveredInSomeRound | internal/smtp/server.go:119-206 | every mail of a connection was delivered in one of its rounds |
| RateLimiter.CompactInPlace | internal/ratelimit/ratelimit.go:28-35 | filtering into the front of the array that is read keeps exactly the hits inside the window, in order |
| RateLimiter.Append | internal/ratelimit/ratelimit.go:40-40 | append in place or into a new array adds one hit at the end |
| RateLimiter.Admit | internal/ratelimit/ratelimit.go:28-42 | on the slice of one key: the answer, and the hits inside the window with the new one when it passes |
| RateLimiter.Limiter.Allow | internal/ratelimit/ratelimit.go:23-43 | answer and new hits of the key, with the hits of all other keys unchanged although slices share arrays over time |
| RateLimiter.Limiter.RetryAfter | internal/ratelimit/ratelimit.go:48-69 | the predicted wait for the key's hits, without changing anything |
| RateLimiterTheorems.StateRemembers | internal/ratelimit/ratelimit.go:23-43 | the stored hits and the log of accepted calls agree on every window that can still matter |
| RateLimiterTheorems.DecidedByWindow | internal/ratelimit/ratelimit.go:36-42 | a call is accepted exactly when fewer than maxHits accepted calls of its key lie in the last window |
| RateLimiterTheorems.WindowIsBounded | internal/ratelimit/ratelimit.go:23-43 | in every window of every series of calls, a key has at most maxHits accepted calls |
| RateLimiterTheorems.KeysAreIndependent | internal/ratelimit/ratelimit.go:23-43 | the answers for a key are those of the series of its own calls alone |
| RateLimiterTheorems.WaitIsExact | internal/ratelimit/ratelimit.go:48-69 | denied at every instant before now + d, accepted at now + d, and d is zero exactly when a call passes now |
| RateLimiterTheorems.RetryAfterIsExact | internal/ratelimit/ratelimit.go:48-69 | the same in the state after any series of calls |
| RateLimiterTheorems.ServeCalls | internal/ratelimit/ratelimit.go:23-69 | one limiter that serves any series of calls in its shared arrays gives the answers and the wait the theorems speak of |
| Base32.ToBase32Lower | internal/web/static/crypto.js:71-80 | the bit packer computes the base32 encoding of section 6 of RFC 4648, lower case and without padding |
| Base32.PushIsOr | internal/web/static/crypto.js:74-74 | adding the byte to the shifted accumulator is the bitwise or: the low eight bits were free |
| Base32.WindowIsKept | internal/web/static/crypto.js:74-76 | wrapping at 32 bits loses no bit that is read later |
| Base32.RestIsPadded | internal/web/static/crypto.js:78-78 | the last letter holds the left-over bits with zero bits behind them |
| Base32.EncodingLength | internal/web/static/crypto.js:71-80 | the length is 8n/5 rounded up |
| Base32.EncodingInjective | internal/web/static/crypto.js:93-97 | different byte strings of one length have different encodings, so identifiers do not collide by encoding |
| Placement.FinalStatus | internal/web/server.go:3024-3032 | the loop over the results gives running, timeout or done |
| Placement.NextInv | internal/web/server.go:3013-3037 | every step keeps one result per seed that has sent, in collector and channel |
| PlacementTheorems.StoredGrowsByOne | internal/web/server.go:3022-3035 | stored results grow by one new seed at a time, and a final status is not touched |
| PlacementTheorems.StatusTellsTheTruth | internal/web/server.go:3022-3035 | in every interleaving each stored result says what its own poller found (inbox for INBOX, spam for another folder, timeout), and the status is running until the last result, then timeout if some poller expired and done otherwise, whatever the order |
| PlacementTheorems.FinalStays | internal/web/server.go:3022-3035 | once final, results and status never change |
| PlacementTheorems.SomeStepEnabled | internal/ipt/poller.go:25-48 | no deadlock: until the collector ends some step is possible |
| PlacementTheorems.EveryTestEnds | internal/ipt/poller.go:25-48 | every run is finite, and one that cannot go on has stored a result of every seed |
| PlacementTheorems.StreamEvents | internal/web/server.go:3129-3172 | the stream goes on to the first final status, store error or disconnect, sends the changes up to there, and closes with done, the error, or nothing when the first read fails or the client has gone |
| PlacementTheorems.ChangesFollow | internal/web/server.go:3129-3141 | the events are exactly the states read, none equal to the one before, the last one the latest |
| Store.Store.CreateMailbox | internal/store/store.go:26-49 | a new row and one count, nothing when token or address is taken |
| Store.Store.SaveMessage | internal/store/store.go:135-150 | a new row and one count, nothing without its mailbox |
| Store.Store.SaveReport | internal/store/store.go:195-245 | insert and count for a first report, replacement without counting for a later one |
| Store.Store.UpdateReportScoreChecks | internal/store/store.go:263-274 | replaces the score and no counter |
| Store.Store.DeleteMailboxByToken | internal/store/store.go:375-385 | deletes the mailbox with its messages and reports, and says whether there was one |
| StoreEffects.DeleteRemoves | internal/store/store.go:375-385 | of the tables, a delete takes exactly the mailboxes with the token, their messages and the reports of those |
| StoreEffects.CleanupRemoves | internal/store/store.go:444-459 | of the tables, a cleanup takes exactly the mailboxes closed and the messages arrived before the cutoff, with what hangs on them |
| StoreEffects.CreateAdds | internal/store/store.go:26-49 | a create adds one mailbox, open for its time to live, and counts it, or does nothing |
| StoreEffects.SaveAdds | internal/store/store.go:135-150 | a save adds one message and counts it, or does nothing |
| StoreEffects.GradeSets | internal/store/store.go:195-274 | a report sets the score of its message and no other; the first is counted with its score, a later one or a correction is not |
| Store.Store.IncrCounter | internal/store/store.go:422-427 | adds to one counter, starting at zero |
| Store.Store.Cleanup | internal/store/store.go:444-459 | deletes old messages and long closed mailboxes with everything that hangs on them, and counts both |
| Store.Store.SumOfScores | internal/db/db.go:127-127 | the sum over the report table, in whatever order rows come |
| Store.Store.Migrate | internal/db/db.go:123-133 | seeds the missing counters from the tables |
| Store.Store.GetGlobalStats | internal/store/store.go:402-418 | with any history the store is consistent with, the totals count all rows there ever were, and the average is the mean of the first scores, in 0 to 10 |
| Store.Serve | internal/store/store.go:26-459 | a store that serves any series of requests ends in the modelled state, and its statistics tell the history of that series |
| StoreModel.SumRemove | internal/db/db.go:127-127 | the sum of scores does not depend on the order of the rows |
| StoreTheorems.OpKeeps | internal/store/store.go:26-459 | every operation keeps: no orphan, counters equal live plus deleted rows, one first score per message |
| StoreTheorems.RunKeeps | internal/store/store.go:26-459 | the same over every run of operations |
| StoreTheorems.MigrationSeeds | internal/db/db.go:111-133 | the first migration of an older database establishes this |
| StoreTheorems.MigrationIsIdempotent | internal/db/db.go:118-133 | a second migration changes nothing, and no existing counter is touched |
| StoreTheorems.CountersTellTheTruth | internal/store/store.go:402-427 | after any run no row is orphaned, created and received count live plus deleted rows, each message counts once as a report, the average is in 0 to 10 |
| StoreTheorems.CountersOnlyGrow | internal/db/db.go:108-110 | no operation lowers a counter |
| StoreTheorems.CleanupRespectsRetention | internal/store/store.go:444-459 | a cleanup removes no message before retention − δ and leaves none older than retention, its cascade included |
| StoreTheorems.RetentionInEveryRun | internal/store/store.go:444-459 | the same after every run whose messages are stored at most δ after their mailbox closed |
| Scoring.ComputeScore | internal/analyzer/analyzer.go:2453-2465 | the accumulating loop gives the score, in 0 to 10, at most 9.5 while an essential check is not pass |
| Scoring.CheckEssentials | internal/analyzer/analyzer.go:2470-2478 | true exactly when every essential check present is pass |
| Scoring.ScoreInRange | internal/analyzer/analyzer.go:3597-3605 | the rounded and capped score is in range |
| Scoring.CapIsExact | internal/analyzer/analyzer.go:2453-2478 | the cap of 9.5 applies exactly to reports above it in which spf, dkim, dmarc or ptr is present and not pass |
| Scoring.RoundingIsClose | internal/analyzer/analyzer.go:3597-3605 | rounding goes to the nearest tenth |
| Scoring.FreshFindingCosts | internal/analyzer/analyzer.go:2192-2203 | what a fresh finding of each check and status costs, whatever delta it came with |
| Scoring.ScoreMonotone | internal/analyzer/analyzer.go:2453-2465 | no lower deltas and no essential check lost give no lower score |
| Scoring.RecheckKeepsDelta | internal/analyzer/analyzer.go:212-223 | a re-check keeps the delta it is given, never says pass, and repeated is the same |
| Scoring.RechecksNeverRaise | internal/analyzer/analyzer.go:2192-2203 | no sequence of re-checks that only find a record raises the overall score |
| Scoring.OnePassIsEnough | internal/analyzer/analyzer.go:212-223 | after one pass per check, further re-checks in any order change nothing |
| Scoring.BlindRecheckNeverRaises | internal/analyzer/analyzer.go:110-115 | a re-check that is not told the status it replaces raises the score of no report if and only if the finding had cost at most 1.3 |
| Scoring.BlindRecheckCanRaise | internal/analyzer/analyzer.go:110-115 | a failed SPF check alone goes from 7.4 to 8.7 |

## Left out

- LoopDetectionKeepsVerdict: speaks of the result code; the reported detail differs by design ("loop-detected" against "lookup-limit").
- OwnResultsAreRead: results are single words of lower-case letters, the only ones SPF, DKIM and DMARC evaluation return.
- The comparisons of ip4, ip6, a, mx, exists and ptr with the sending address are an oracle per mechanism text and domain (match, no match, temporary error), with their CIDR arithmetic.
- DKIM and DMARC evaluation: results are a function of the message text, given per round.
- Upper and lower case are those of ASCII letters; white space is Go's, Unicode blanks included.
- Dates are texts without line breaks; how a date is formatted is not part of the model.
- Counter writes and placement status writes succeed; SQL text, JSON, SQLite errors and the tables without counters are not part of the model.
- Scores are exact real numbers, not floating point.
- Limiter calls are serial with a clock that does not go back.
- SMTP reply texts, timeouts and connection limits; how the bytes of a line decode to text is a parameter.
- Tasks and polls that never return: every task ends with a result or a panic, every poll with a folder or the deadline.
- Sealed boxes, key derivation and hashing: their primitives are foreign code.
- The single checks of the analyzer, bilingual texts, web pages, PDF, configuration, certificates and mailing: long case tables or plumbing without a property of this kind.
