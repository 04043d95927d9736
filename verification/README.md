# ProxyLoop: a verified model

ProxyLoop is an event-sourced negotiation agent. It speaks for a user, and it may say "yes" only with
the authority it was given. This project models the parts that carry that promise and proves what they
keep, on all inputs and over all runs.

**The Fast grammar** (`Text`, `Protocol`, `Prefixes`, `Streaming`, `RoundTrip`, `Printing`,
`RoundTripLaws`, `Exactness`, `Speaking`, `Relays`, `Sayings`, `Printed`). `Protocol` says what a whole text means: a pure function from text to items, with the
nine small patterns written as matchers. `Streaming` is the incremental parser, a class with the
buffer, the pause and the sentence counter of the original. It is proved to return what the whole text
means, however the text is cut, and never to take back an item. `RoundTrip` and `RoundTripLaws` are the
printer and its laws: a text without issues prints to a text that means exactly the same items, and what
any text says is a fixpoint of printing and parsing. `Exactness` says which turns come back from their
own print, by conditions on the turn that take neither printing nor parsing to check. `Speaking`, `Relays`
and `Sayings` say what a line says in terms of its characters, and `Printed` what each item adds to a print.

**The authority log** (`Contract`, `Fold`, `Guard`, `Causes`, `Identifiers`, `Capabilities`, `Runs`,
`Cards`, `Provenance`, `Writing`, `Agreement`, `Authority`, `BoundTerms`, `Grants`, `Restrictions`,
`Effects`, `Witness`, `Mandates`, `Rulings`, `Reductions`, `Offers`, `Emitters`, `Decisions`). The blackboard is a fold of the log; `Fold` has the reducers that touch authority and
`Guard` the authorization rules. `Reductions` says of each event when the fold takes it and what the board
is after it, and `Rulings` of each rule when it allows, and else for which reason it refuses. A log is `Written` when it is dense, stamped, monotone in time,
accepted by the fold and by the decision rules; a `Run` is a written log whose cards and accept
capabilities are answers of Guard. Guard is asked at some time the clock showed, at or before the time
the answer is stamped with, and about the offers, grants and capabilities that are on the board when the
answer is written; events that are only recorded may come in between (`Runs.AskedBefore`), as the tool
call of the asker does. Decisions need no such assumption, because it is proved that a run's decisions
are exactly those `decide` allows (`Provenance.DecisionsAllowed`, `Agreement.DecideAgrees`). Over every
run: a capability is released at most once and in its own epoch, an approval has its whole chain of
card, post and decision, every released yes has its grant and that grant its chain, in order and in
time (`Grants.WholeChain`), and the number of yeses is bounded by the grants. `Witness` gives a concrete
run that releases a yes, so none of this is about nothing.

**The single writer and the checkers** (`Journal`, `Bus`, `EvidenceCheck`, `Chain`, `SpokenAccepts`,
`Readings`).
`Bus` is a class with the queue, the flags and the re-entrant `emit` of the original. Its subscribers
are an arbitrary script: for each call, the events they try to emit, the subscribers they add, and
whether they return or raise. `EvidenceCheck` replays a log it did not write. `Chain` traces each
delivered line back to a model response, which it parses again with the grammar above.
`SpokenAccepts` reads one log both ways: in a run that the provenance checker backs, every accept that
is spoken has a capability of its own, and it has all that stands behind a released yes exactly if this
capability was authorized to accept an offer. `Readings` has concrete runs: one whose yes is spoken, and
ones that speak accepts under capabilities for something else.

**Standalone algorithms**: the largest-remainder allotment (`Allotment`), the resumable stream and the
echo matching of the live view (`LiveStream`), the blind judge batches (`Batching`), the turn schedule
on the recorded clock (`Blocks`) and the Wilson interval (`Wilson`).

Parameters stand for what the model does not look into. `Grammar.word` and `Grammar.lowerWord` are the
Unicode tables behind `\w` and `isalpha() and islower()`. `Rules` holds the functions that read the
terms off an offer's slot fields and values, hash them, read them back, name an action, and judge
applied changes. Every theorem holds for all of them. No hash is assumed injective, except in
`BoundTerms`, which says so.

Four results give the exact condition of something that fails in general: `Exactness.FaithfulExactly`,
`Agreement.DecideMandateAgrees`, `LiveStream.OptimalExactly` and `SpokenAccepts.SpokenYes`.

Three places where the code and what is said about it differ:

- The grammar's documentation promises that parsing a formatted turn is the identity. That holds for
  the items a text can say, and not for all items: two pauses print, and parse to a pause and an issue
  (`Exactness.TwoPauses`). `Exactness.FaithfulExactly` gives the exact condition, item by item.
- `decide` and the log agree for cards. For a mandate that is proposed again, with its id and hash, in
  the epoch it was decided in, `decide` allows a second decision and the log refuses it
  (`Agreement.MandateProposedTwice`); they agree exactly when this id and hash was not decided before
  (`Agreement.DecideMandateAgrees`). The kernel moves the epoch after each mandate decision, and the
  hash covers the epoch, so it does not run into this.
- An accept is to be spoken only on the authority to accept. The fold, the Speaker's revalidation and the
  provenance checker ask that an accept line and its release name one live capability, and not what it
  is for; the capability of a transaction needs no answer of Guard. A log can therefore speak an accept
  without a card, an approval or a mandate (`Readings.SpokenWithoutGrant`), or speak two of the same terms
  (`Readings.SameTermsTwice`). The condition is the intent of the capability's authorization
  (`SpokenAccepts.SpokenYes`). No module of the kernel authorizes transactions, so its own logs meet it
  (`SpokenAccepts.EverySpokenYes`).

`dafny verify dfyconfig.toml` checks the whole project. Many proofs begin with a `hide` statement: it
keeps the solver away from definitions that the proof does not need.

## Model

| member | source | states |
|---|---|---|
| Streaming.ParseStream | src/proxyloop/contract/protocol.py:370-413 | chunk independence: for every way of cutting a text into chunks, the fed items and the closing ones are what the whole text means |
| Streaming.ParseTurn | src/proxyloop/contract/protocol.py:462-466 | parsing in one chunk gives the same meaning |
| Streaming.StreamParser.constructor | src/proxyloop/contract/protocol.py:357-368 | a new parser has read and returned nothing |
| Streaming.StreamParser.Feed | src/proxyloop/contract/protocol.py:370-378 | a closed parser refuses; otherwise the items returned are appended to those before, and the parser's counters are those of everything read so far |
| Streaming.StreamParser.Close | src/proxyloop/contract/protocol.py:380-389 | after the closing items, what was returned is the meaning of everything that was fed; closing again returns only the empty-turn issue, if anything |
| Streaming.StreamParser.Line | src/proxyloop/contract/protocol.py:391-413 | a finished line yields its remaining items, a growing line the sentences that have closed since, and the counter follows |
| Streaming.StreamParser.DirectiveLine | src/proxyloop/contract/protocol.py:415-432 | a directive line yields the items and the pause and end flags of the grammar |
| Streaming.StreamParser.Pause | src/proxyloop/contract/protocol.py:434-438 | one pause a turn, then an issue |
| Streaming.StreamParser.FinishLines | src/proxyloop/contract/protocol.py:373-376 | finished lines, one after the other, show all their items |
| Streaming.StreamParser.NeverRetracted | src/proxyloop/contract/protocol.py:370-378 | whatever is fed next, what was returned is how the meaning of the whole text begins |
| Streaming.LineSkip | src/proxyloop/contract/protocol.py:401-405 | a line's items are those of the sentences returned early followed by the items of the rest |
| Speaking.SpacesAre | src/proxyloop/contract/protocol.py:296-301 | the code points that count as white space, listed |
| Speaking.MatchesAre | src/proxyloop/contract/protocol.py:296-300 | what a case-insensitive pattern letter matches: itself, its capital, and three more letters for `i` and `s` |
| Speaking.SentencesAre | src/proxyloop/contract/protocol.py:301 | every line is its sentences with the dropped white space put back; each but the last ends in `.`, `!` or `?`, and in none does white space follow one of these three |
| Speaking.CutUnique | src/proxyloop/contract/protocol.py:301 | and there is only one such cut |
| Speaking.TwoSentences | src/proxyloop/contract/protocol.py:301-334 | two sentences on a line, the first ending in `.`, `!` or `?`, are said one after the other |
| Speaking.SingleSentence | src/proxyloop/contract/protocol.py:301-334 | a speakable line without one of these before white space says one sentence |
| Speaking.CleanSays | src/proxyloop/contract/protocol.py:306-311 | cleaning takes off a leading `FIRST:` or `THEN:`, then a trailing `@end_call`, which it reports exactly if there was one, then a trailing label at a word boundary |
| Speaking.SpeakableExactly | src/proxyloop/contract/protocol.py:314-325 | a text may be spoken if and only if it is one trimmed line, opens with no `@` or label, ends in no `@end_call` or label, and holds no `@slow:` |
| Sayings.SentenceSaid | src/proxyloop/contract/protocol.py:328-334 | what one sentence says: an issue, or speech, or speech and an issue if `@hold`, `@wait` or `@end_call` stands in it |
| Sayings.SegmentsSplit | src/proxyloop/contract/protocol.py:296-411 | a line splits at its `@slow:` marks, in any case, and nowhere else |
| Sayings.LineSaid | src/proxyloop/contract/protocol.py:391-413 | a line with any number of `@slow:` segments says its speech, then an issue if an `@end_call` or a stray directive was in it, and then the items of every segment in order |
| Sayings.LateSaid | src/proxyloop/contract/protocol.py:391-413 | after a pause, under a profile where it ends speech, any other line is one issue |
| Sayings.DirectiveSaid | src/proxyloop/contract/protocol.py:415-438 | what a directive line says: an end whatever follows it, a hold for one of the five reasons and on the call lane only, a wait alone, each once, and the issue of every other line |
| Sayings.NextLineSaid | src/proxyloop/contract/protocol.py:370-413 | one more line says what it says after the pauses and ends said so far |
| Sayings.TextSaid | src/proxyloop/contract/protocol.py:380-389 | a text says what its lines say, and that it is empty if they say nothing |
| Relays.KeyExactly | src/proxyloop/contract/base.py:20 | a fact key is dot-separated parts of lower-case letters, digits and underscores, and starts with a letter |
| Relays.FactsExactly | src/proxyloop/contract/protocol.py:337-345 | facts are read if and only if every piece between semicolons is a key, the first equals sign and a value, stripped |
| Relays.SegmentSaid | src/proxyloop/contract/protocol.py:440-459 | what a segment says, by its first word: facts, one correction, a request, a revocation, or a note, and the issue of each that is malformed or of the other lane |
| Prefixes.ReadyStable | src/proxyloop/contract/protocol.py:398-405 | all closed sentences of a growing line are a prefix of the sentences of every longer line, although cleaning strips both ends of it |
| Prefixes.CleanCuts | src/proxyloop/contract/protocol.py:306-311 | cleaning cuts off a tail that holds no sentence end |
| Prefixes.CleanKeeps | src/proxyloop/contract/protocol.py:306-311 | once the cleaned start of a line holds a sentence end, cleaning a longer line keeps all up to it |
| Prefixes.ClosedAgree | src/proxyloop/contract/protocol.py:301 | a text that another keeps up to its sentence ends has its closed sentences as the first ones of the other |
| RoundTrip.FormatTurn | src/proxyloop/contract/protocol.py:477-504 | the loop prints the page of the items, and fails on what has no canonical text; `Printed` says what that page is |
| Printed.SpeechWritten | src/proxyloop/contract/protocol.py:481-491 | one more sentence prints after a space if the last item is speech that ends in `.`, `!` or `?`, else on a line of its own; if it is not speakable, the turn has no print |
| Printed.DirectiveWritten | src/proxyloop/contract/protocol.py:491-504 | one more directive prints on a line of its own, and its exact text |
| Printed.FactsWritten | src/proxyloop/contract/protocol.py:469-474 | one more fact prints as a semicolon, a space, and key, equals sign and value |
| Printing.CanonicalPage | src/proxyloop/contract/protocol.py:481-504 | a canonical turn prints, and its lines mean the echo of its items in the same turn state |
| Printing.SpeakableJoin | src/proxyloop/contract/protocol.py:314-325 | two speakable sentences joined after a stop are a speakable line |
| RoundTripLaws.PairsRound | src/proxyloop/contract/protocol.py:337-345 | facts written as `key=value` with separators read back as the same facts |
| RoundTripLaws.RelayWell | src/proxyloop/contract/protocol.py:440-459 | what a relay segment says prints and reads back as itself |
| RoundTripLaws.MeaningCanonical | src/proxyloop/contract/protocol.py:391-459 | what any text says is a canonical turn, and without an issue each item is what its own print says |
| RoundTripLaws.TextMeans | src/proxyloop/contract/protocol.py:477-504 | every canonical turn prints, and the print says exactly its items |
| RoundTripLaws.PrintParseFixpoint | src/proxyloop/contract/protocol.py:5-8 | on every text, what it says prints, and the print says the same |
| RoundTripLaws.PrintParseIdentity | src/proxyloop/contract/protocol.py:5-8 | a text that parses without an issue prints to a text that parses to exactly the same items, under the same lane and profile |
| Exactness.WellTypedExactly | src/proxyloop/contract/protocol.py:440-459 | a relay item comes back from its own print if and only if it has the fields of its kind, in a lane with that kind, as facts that can be written or a text a line can hold, and a note does not stand as another kind |
| Exactness.CanonicalExactly | src/proxyloop/contract/protocol.py:477-504 | a turn comes back from its print, issues aside, if and only if each item may be written where it stands: one speakable sentence, a well typed relay, a hold on the call lane, one pause, one end |
| Exactness.FaithfulExactly | src/proxyloop/contract/protocol.py:477-504 | it comes back exactly if and only if, besides, it is not empty, no speech has an inline directive and no note begins with what looks like the type of a relay |
| Exactness.TwoPauses | src/proxyloop/contract/protocol.py:434-438 | a concrete turn that prints and does not come back |
| Fold.Frame | src/proxyloop/core/fold.py:450-456 | which events may change the epoch, the pending card, the approvals, the authorizations, the capabilities and the mandate, and that an epoch only grows; `Reductions` says how each changes them |
| Reductions.OfferRecording | src/proxyloop/core/fold.py:161-175 | an offer is taken if and only if its name, revision and slots are valid, it is newer than the one it replaces and there is room; then it stands there open, unbound and unheard |
| Reductions.ReadingBack | src/proxyloop/core/fold.py:386-402 | a read-back is taken if and only if it is of the recorded revision and of exactly its fields; then each slot has the status given for its field, and the offer the terms given |
| Offers.OfferStands | src/proxyloop/core/fold.py:161-402 | in every log the fold takes, an offer on the board is its last recording; unheard until it is read back, then as the last read-back has it; open until a decline |
| Reductions.Fencing | src/proxyloop/core/fold.py:178-187 | a fence is added at the end, or all of its name are taken down |
| Reductions.Bumping | src/proxyloop/core/fold.py:190-202 | an epoch is taken if and only if it is greater; the mandate decided in the last one moves along for a decision's own epoch, and for no other reason |
| Reductions.DecidingMandate | src/proxyloop/core/fold.py:237-246 | the mandate is decided if and only if it is proposed, of this epoch, and of this id and hash |
| Reductions.Posting | src/proxyloop/core/fold.py:249-263 | a post is taken if and only if it is bound by id, hash and epoch to the pending card or the proposed mandate |
| Reductions.DecidingCard | src/proxyloop/core/fold.py:279-299 | a card is decided if and only if it is pending, current, of this epoch and unexpired; the approval has its terms, epoch and expiry |
| Reductions.Authorizing | src/proxyloop/core/fold.py:302-330 | a capability is taken if and only if it is new, unused, unexpired and of this epoch, and for an accept its terms are bound and not accepted and none is in flight |
| Reductions.Queueing | src/proxyloop/core/fold.py:342-353 | an accept line is taken if and only if its capability is live, a decline if and only if its offer is on the board, which it closes |
| Reductions.Releasing | src/proxyloop/core/fold.py:356-374 | a release is taken if and only if its capability is live, unexpired and of this epoch, no fence stands, and the offer of its first authorization is open with its terms, and then it is used |
| Reductions.Revoking | src/proxyloop/core/fold.py:377-383 | a revocation takes one live capability off the board |
| Reductions.Stepping | src/proxyloop/core/fold.py:205-223 | a status is taken if and only if it is a step of the case, and the verified ends only with the completion and the number of released accepts they need |
| Emitters.EnvelopeExactly | src/proxyloop/contract/events.py:191-269 | an event is valid on its own if and only if its causes are earlier, it has one if it is derived, its actor may write it, and its payload is filled in |
| Emitters.ModelsOnlyRestrict | src/proxyloop/contract/events.py:187-190 | whatever a model or the world writes leaves the board as it was, but for one unused capability it may take back |
| Causes.CheckCauses | src/proxyloop/contract/events.py:286-304 | the pass succeeds if and only if every cause is known, every decision cites the one post it records, and no subject, id and hash is decided twice |
| Decisions.CausesExactly | src/proxyloop/contract/events.py:272-304 | a dense log keeps the rules if and only if every cause is an earlier event, and every decision cites one post, records what it says and who posted it, and is the first of its subject, id and hash |
| Identifiers.CardIdInjective | src/proxyloop/guard/authorize.py:140-151 | a card id determines the offer, the revision, the epoch and the count it was built from |
| Capabilities.EpochMonotone | src/proxyloop/core/fold.py:190-198 | epochs never go back, and two points of one epoch have no epoch event between them |
| Capabilities.CapMinted | src/proxyloop/core/fold.py:302-339 | a capability in the blackboard is the one its latest authorization minted, in the epoch it names, and was not revoked since |
| Capabilities.ConsumedForever | src/proxyloop/core/fold.py:372-374 | a released capability stays in the blackboard, released and otherwise unchanged |
| Capabilities.OneUse | src/proxyloop/core/fold.py:333-339 | no capability is released twice in a log the fold takes |
| Capabilities.ReleaseFollowsMint | src/proxyloop/core/fold.py:356-374 | between the latest authorization of a capability and its release there is no epoch event, no revocation and no other release of it |
| Capabilities.LookupSucceeds | src/proxyloop/core/fold.py:361-362 | the authorization looked up at a release always exists |
| Capabilities.AcceptsApart | src/proxyloop/core/fold.py:311-314 | at most one accept is in flight, and released accepts have distinct terms |
| Capabilities.ReleasesApart | src/proxyloop/core/fold.py:370-371 | two accept releases of a log are of different terms |
| Capabilities.VerifiedMeansCounted | src/proxyloop/core/fold.py:217-222 | the consumed accept capabilities are as many as the accept releases in the log |
| Capabilities.VerifiedStatus | src/proxyloop/core/fold.py:205-223 | a step to VERIFIED_COMPLETE happens with exactly one accept release in the log, to VERIFIED_NO_DEAL with none |
| Runs.PendingRequested | src/proxyloop/core/fold.py:266-276 | the pending card is the last one that was requested |
| Runs.AskedBefore | src/proxyloop/slow/tools.py:143-150 | an answer Guard gave before events that are only recorded, such as the tool call it answers, is still an answer of Guard where it is written |
| Cards.OffersFollow | src/proxyloop/core/fold.py:161-175 | a recorded offer is only replaced by a newer revision or by itself with the same contents and expiry |
| Cards.SameIdSameTerms | src/proxyloop/guard/authorize.py:140-162 | two cards of a run with one id have the same terms and epoch |
| Cards.PendingUndecided | src/proxyloop/guard/authorize.py:140-141 | the id of a pending card is never one that was already decided, although ids of other offers may share the counted prefix |
| Cards.DecisionAdds | src/proxyloop/core/fold.py:279-299 | a decision appends one approval with a new id, made from the card that was pending and unexpired |
| Cards.ApprovalsGrow | src/proxyloop/core/fold.py:298-299 | approvals are only appended, never replaced |
| Cards.ApprovalsUnique | src/proxyloop/core/fold.py:298-299 | no two approvals of a run share an id |
| Provenance.DecisionCites | src/proxyloop/contract/events.py:272-304 | a decision of a written log cites one earlier post and records exactly it, for the first time |
| Provenance.Decided | src/proxyloop/core/fold.py:249-299 | a card decision follows a request and a post with the same id, terms and epoch, the post by the approver it names, before the card expires |
| Provenance.Provenance | src/proxyloop/core/fold.py:249-299 | every approval of a run has, in order, its request, the post of the same approver and the decision that cites it, all of one id, epoch and terms |
| Provenance.DecisionsAllowed | src/proxyloop/guard/authorize.py:291-305 | every card decision of a run is the one `decide` answers with, for the post it cites, asked at any time up to its stamp |
| Writing.WrittenAppend | src/proxyloop/core/log.py:32-48 | one more event keeps a log written if and only if it has the next seq, a valid envelope, the folded epoch, a time not before the last, joins the fold and meets the decision rules |
| Agreement.DecisionWritten | src/proxyloop/core/log.py:43-44 | the log takes a post and then its decision if and only if they are bound, the card is open at that time and the subject was not decided |
| Agreement.DecideAgrees | src/proxyloop/guard/authorize.py:275-305 | for the cards of a run, `decide` allows a decision if and only if the fold and the log take the post and then the decision, whenever it was asked and as long as the card has not expired at the decision's stamp |
| Agreement.DecideMandateAgrees | src/proxyloop/guard/authorize.py:278-290 | for mandates the two agree if and only if this id and hash was not decided before |
| Agreement.MandateProposedTwice | src/proxyloop/guard/authorize.py:278-290 | a concrete log after which `decide` allows what the log refuses |
| Rulings.OfferRuling | src/proxyloop/guard/authorize.py:105-124 | an offer may be agreed to if and only if each of the checks listed holds, and the refusal names the first that fails |
| Rulings.TermsRead | src/proxyloop/guard/terms.py:100-145 | the terms are read from the name, the revision and the fields and values of the slots, whatever their statuses |
| Rulings.CardRuling | src/proxyloop/guard/authorize.py:127-162 | a card is given if and only if, besides, no card of the board still stands; the card, and the reason of each refusal |
| Rulings.GrantRuling | src/proxyloop/guard/authorize.py:192-212 | there is a grant if and only if there is no denial, and the covering mandate or a live approval; which of them it is, and the reason of each refusal |
| Rulings.AcceptRuling | src/proxyloop/guard/authorize.py:215-252 | a capability is given if and only if every check of status, offer, earlier accepts, grant and action holds; the capability, and the reason of each refusal |
| Rulings.DecideRuling | src/proxyloop/guard/authorize.py:275-305 | a decision is given if and only if every check of its subject holds, and it is that of the post; the reason of each refusal |
| Authority.MintAllowed | src/proxyloop/guard/authorize.py:215-252 | an accept capability is minted in the call, without a fence, for an open confirmed offer of its terms with the required features and no forbidden change, on an approval or a mandate with price, term and fees within its bounds, and expires no later than the grant, the offer and 60 seconds |
| Authority.NoDenialBefore | src/proxyloop/guard/authorize.py:198-202 | no denial of the terms was decided in this epoch before the mint |
| Authority.EndToEnd | src/proxyloop/guard/authorize.py:192-252 | every released yes of a run: minted in the same epoch on a grant that covered it then, a mandate with its terms within the bounds, and has not expired at its release; a mandate decided in this epoch or carried into it by decisions only, an approval still on the board, no denial before it, the expiry of the offer it was minted for not reached, no fence, and an open offer with those terms |
| BoundTerms.SameOffer | src/proxyloop/guard/terms.py:82-98 | when terms name their offer and revision, hashes tell the terms of offers apart and read-backs carry the hash of what they read back: the offer at the release is the revision the yes was minted for, with the same contents and an expiry not reached |
| BoundTerms.OffersBound | src/proxyloop/guard/readback.py:494-508 | then every offer that carries a terms hash carries that of its own terms |
| Mandates.MandateStep | src/proxyloop/core/fold.py:190-246 | what each event makes of the mandate and its epoch |
| Mandates.MandateAt | src/proxyloop/core/fold.py:190-246 | the mandate on the board is the last proposal as the last decision made it, and it is of the board's epoch if and only if since then the epoch moved for nothing but decisions of mandates |
| Grants.MandateFirst | src/proxyloop/guard/authorize.py:203-207 | a mandate backs only the first released yes of a run: any later one rests on an approval |
| Grants.ApprovalOnce | src/proxyloop/core/fold.py:311-314 | two released yeses that rest on approvals rest on two different ones |
| Grants.YesesBounded | src/proxyloop/guard/authorize.py:203-212 | in every run the released accepts are at most one more than the granted approvals |
| Grants.MandateProvenance | src/proxyloop/core/fold.py:230-246 | a decided mandate was proposed, posted for by the approver it names, and decided as the post says; it is of the board's epoch if and only if no revocation or other tightening moved the epoch since |
| Grants.WholeChain | src/proxyloop/core/fold.py:230-299 | every released yes of a run, from the approver on: the request or proposal, the post, the decision that cites it, the mint and the release follow each other, the approved card had not expired at the release, and between the decision of a mandate and the release the epoch moved for decisions only |
| Restrictions.ReleaseAfterFences | src/proxyloop/core/fold.py:178-187 | every fence raised before a release that needs authority was cleared before it |
| Restrictions.DeclinedStays | src/proxyloop/core/fold.py:342-353 | a declined offer stays declined until it is recorded again |
| Restrictions.DeclinedNotReleased | src/proxyloop/core/fold.py:361-365 | nothing authorized for an offer is released after its decline, unless it was recorded again |
| Restrictions.TerminalStays | src/proxyloop/core/fold.py:205-223 | a case in a terminal status never leaves it |
| Restrictions.OffersBounded | src/proxyloop/contract/state.py:62-69 | at most six offers are on the board, with distinct valid names, a revision of at least one and at most eight slots, after every event |
| Effects.CardJoins | src/proxyloop/guard/authorize.py:127-162 | a card that Guard allows, whenever it was asked, always joins the blackboard |
| Effects.MintFresh | src/proxyloop/guard/capability.py:26-36 | the id of a new capability is that of no other, when all are minted |
| Effects.YesJoins | src/proxyloop/guard/authorize.py:241-252 | a capability Guard allows, whenever it was asked, joins exactly until it expires, which is later than then, and its accept line joins after it |
| Effects.InFlightUnreleased | src/proxyloop/guard/capability.py:39-54 | while an accept is in flight, no accept of its terms was released |
| Effects.RevalidateIsRelease | src/proxyloop/guard/capability.py:57-76 | the Speaker's revalidation passes if and only if the fold will take the release at that time and the offer has not expired |
| Effects.RevalidateRuling | src/proxyloop/guard/capability.py:57-76 | and the reason it gives is the first that applies: the capability, its use, its epoch, a fence, its offer, the terms, or the first expiry |
| Witness.ReleasedRun | src/proxyloop/guard/authorize.py:215-252 | a concrete run from the empty log: offer, read-back, card, post, decision, capability, accept line and the released yes |
| Witness.BoundRun | src/proxyloop/guard/readback.py:494-508 | its terms name their offer, its hash tells them apart and its read-back carries the hash: all that `BoundTerms.SameOffer` asks |
| Journal.EventLog.Append | src/proxyloop/core/log.py:32-48 | the event is appended if and only if its seq is next, time does not go back and a decision meets the log rules; otherwise nothing changes |
| Journal.AppendableJoins | src/proxyloop/core/log.py:42-44 | for events that the envelope and the fold take, what `append` checks is all that a written log needs |
| Bus.Bus.constructor | src/proxyloop/core/bus.py:30-38 | a new bus has an empty log, the blank blackboard and no subscriber |
| Bus.Bus.Subscribe | src/proxyloop/core/bus.py:51-52 | a subscriber may be added at any time, also while events are delivered, and hears what is delivered after the event that is being delivered then |
| Bus.Bus.Write | src/proxyloop/core/bus.py:62-86 | an event is written if and only if the log admits it, stamped with the next seq and the folded epoch; a refused one changes neither log nor blackboard and is remembered while delivering |
| Bus.Bus.Emit | src/proxyloop/core/bus.py:54-89 | nested, it only queues; otherwise every subscriber has heard all that was written since, in log order, or, when a call failed, exactly the events up to that call; no call before it raised anything, what it raised is raised, and what was queued then is dropped for good |
| Bus.Bus.Deliver | src/proxyloop/core/bus.py:91-102 | the queue is delivered whole, or up to a failing call, after which it is empty; the delivering flag is reset either way |
| Bus.Bus.Drain | src/proxyloop/core/bus.py:94-97 | event by event, also those queued meanwhile, until a call raises; terminates for every finite script of subscribers |
| Bus.Bus.Broadcast | src/proxyloop/core/bus.py:96-97 | one event reaches the subscribers that are there when its turn comes, in their order, up to the first call that raises |
| Bus.Bus.Subscriber | src/proxyloop/core/bus.py:105-106 | what a subscriber emits is admitted or refused one by one, a refusal is remembered, and the subscribers it adds come last and have heard nothing |
| Bus.Bus.Call | src/proxyloop/core/bus.py:104-116 | a call fails exactly when the subscriber raises and is not isolated, raises that the model is unavailable, or had an emit refused, swallowed or not; any other isolated error is counted |
| EvidenceCheck.FoldFailures | src/proxyloop/evidence/check.py:85-96 | the replay reports nothing if and only if every event joins with the folded epoch, and otherwise the first that does not |
| EvidenceCheck.LogFailures | src/proxyloop/evidence/check.py:60-82 | a finding for each broken rule of opening event, manifest, end, runs, seq, time, causes and replay, and none for one that holds; nothing if and only if all hold |
| EvidenceCheck.CleanIsWritten | src/proxyloop/evidence/check.py:69-96 | a log of valid envelopes is found clean if and only if it is one the single writer could have written |
| EvidenceCheck.CheckSession | src/proxyloop/evidence/check.py:60-96 | whatever was emitted, refused and nested, the log of a bus is found clean if and only if its session ended and it began as the manifest of its run says; nothing about order, causes or replay is ever found |
| Chain.ChainFailures | src/proxyloop/evidence/chain.py:147-167 | the first failure is of the first event that is not backed; none if and only if every turn, line and release is backed by its chain, each call backs one turn, each source one line, and each turn's spoken texts are within its Speech items as a multiset |
| Chain.Delivered | src/proxyloop/evidence/chain.py:77-130 | a line passes exactly when its chain holds, its Speech item is not used up, its source is new and the texts match; then it takes both |
| Chain.BackedNext | src/proxyloop/evidence/chain.py:154-166 | what one more event must add to a backed log |
| Chain.TurnFollows | src/proxyloop/evidence/chain.py:46-74 | a turn without a fault has one successful call of its lane's role, and its items are the parse of that call's recorded response |
| Chain.TurnExactly | src/proxyloop/evidence/chain.py:46-74 | a turn has no fault if and only if it cites one request and one successful attempt of its call, of its lane's role, both with its lane, generation, model and prompt, and its items are the meaning of the response under the request's profile |
| Chain.TurnReasons | src/proxyloop/evidence/chain.py:46-74 | and the reason given is that it does not cite the two, or the first of the rest that is not so |
| Chain.LinkExactly | src/proxyloop/evidence/chain.py:77-112 | a delivered line has a link if and only if its first sentence and that sentence's first turn share utterance, lane and generation and come from one real call, or it has no sentence and its first release that cites a line cites one of its lane |
| Chain.AloneIs | src/proxyloop/evidence/chain.py:46-144 | what is asked of a turn, a line or a release on its own, said without the checks |
| Chain.ByIdLast | src/proxyloop/evidence/chain.py:151 | an id stands for the last event that has it |
| Chain.SpokenIsGenerated | src/proxyloop/evidence/chain.py:77-130 | in a backed log, what a turn's sentences spoke is within the Speech items of the response parsed again, and what was heard is the generated text or, interrupted, a prefix |
| Chain.ReleaseCarries | src/proxyloop/evidence/chain.py:133-144 | a release passes if and only if it names the capability of each accept line it cites, and cites one if it names any |
| SpokenAccepts.AcceptCarried | src/proxyloop/evidence/chain.py:103-144 | an accept that is spoken is a line queued under a live capability, released after it by an event that names this capability while it is live, and spoken after that in the line's words |
| SpokenAccepts.ReleaseIntent | src/proxyloop/core/fold.py:356-374 | a release finds the capability that its latest authorization minted, and releases the accept of an offer if and only if it was authorized for that |
| SpokenAccepts.SpokenApart | src/proxyloop/core/fold.py:333-374 | two spoken accepts have different lines, releases and capabilities, and are of different terms when both capabilities were authorized to accept an offer |
| SpokenAccepts.SpokenYes | src/proxyloop/guard/authorize.py:192-252 | in a run, the release of a spoken accept has everything behind it that stands behind a released yes if and only if its capability was authorized to accept an offer |
| SpokenAccepts.EverySpokenYes | src/proxyloop/guard/authorize.py:192-252 | so every spoken accept has it in a run whose capabilities are all authorized for that |
| Readings.SpokenRun | src/proxyloop/evidence/chain.py:103-112 | a concrete run whose yes is released and spoken, which the provenance checker backs |
| Readings.SpokenWithoutGrant | src/proxyloop/core/fold.py:342-374 | a concrete run, backed as well, that speaks an accept without a card, an approval or a mandate, under a capability of the other intent |
| Readings.SameTermsTwice | src/proxyloop/core/fold.py:356-374 | a concrete run, backed as well, that speaks two accepts of the same terms under such capabilities |
| Readings.SameTermsMixed | src/proxyloop/core/fold.py:370-371 | and one that speaks a yes of Guard and then, under such a capability, an accept of the same terms |
| Allotment.Allot | scripts/mod/profile_sets.py:131-145 | the counts sum to what is asked or all there is, exceed no stratum, give each one if possible, and are the exact shares rounded, up where remainders are largest |
| Allotment.GivenPositive | scripts/mod/profile_sets.py:141-144 | one pass in remainder order gives out all that rounding down left over |
| Allotment.CeilingFits | scripts/mod/profile_sets.py:141-144 | a share rounded up never exceeds its stratum |
| LiveStream.AcceptFrames | apps/web/src/liveState.ts:45-59 | the batch loop is frame-by-frame acceptance: duplicates dropped, a gap, a foreign run or a bad frame stops the stream where it is |
| LiveStream.FramesTaken | apps/web/src/liveState.ts:45-59 | up to the first bad frame, frame of another run or gap, the stream takes of each next seq the first frame that has it, and what stopped it is reported |
| LiveStream.BatchesCompose | apps/web/src/liveState.ts:45-59 | how frames are batched makes no difference |
| LiveStream.AcceptKeeps | apps/web/src/liveState.ts:37-44 | the accepted events are dense from 0 and only ever extended |
| LiveStream.Unechoed | apps/web/src/liveState.ts:86-93 | the sends that first fit leaves without an echo, in their order, for any list of echoes; for echoes with distinct seqs, ascending within each text, no matching leaves fewer |
| LiveStream.FirstFitMatches | apps/web/src/liveState.ts:85-93 | each echo is used once, for a send of its text at or before it, and no send has a later echo than it could have |
| LiveStream.FirstFitOptimal | apps/web/src/liveState.ts:85-93 | for such echoes first fit is a maximum matching, whatever the order of the sends |
| LiveStream.OptimalExactly | apps/web/src/liveState.ts:85-93 | among echoes with distinct seqs, first fit is optimal for all sends if and only if the echoes of each text come in the order of their seqs |
| Batching.Batches | scripts/mod/teacher_select.py:361-376 | the batches partition the views, none is over size, no two views of a batch share a run or leak either way, and no view would fit an earlier batch |
| Batching.OccursIs | scripts/mod/teacher_select.py:355-358 | a sentence is visible if and only if the prompt is it with something before and after |
| Batching.NothingVisible | scripts/mod/teacher_select.py:379-382 | such batches show nothing |
| Batching.VisibleAre | scripts/mod/teacher_select.py:379-382 | what the export counts is the views whose speech another view of the batch shows |
| Batching.Export | scripts/mod/teacher_select.py:409-411 | the export's refusal is unreachable |
| Blocks.D1Blocks | scripts/mod/world_select.py:238-254 | the blocks concatenate to all that was heard, each starts when its first utterance is sent and the rep is free, and takes exactly what was sent by then |
| Blocks.StartsAre | scripts/mod/world_select.py:244-253 | each turn starts at the later of the time its first utterance is sent and the end of the turn before, as long as that one was recorded to take |
| Blocks.StartsIncrease | scripts/mod/world_select.py:246-253 | starts strictly increase and leave each turn its recorded time |
| Blocks.ScheduleUnique | scripts/mod/world_select.py:239-242 | the rule determines the blocks and their starts |
| Wilson.WilsonIsScore | src/proxyloop/eval/stats.py:17-24 | the interval holds exactly the rates whose score is at most zero: those the observed rate is within `z` standard errors of |
| Wilson.WilsonBounds | src/proxyloop/eval/stats.py:17-24 | unclamped, 0 <= lo <= k/n <= hi <= 1 |
| Wilson.RateIsWilson | scripts/mod/teacher_select.py:481-493 | the separately written rate computes the same interval, and no clamp ever bites |

## Left out

- Pydantic parsing of payloads, JSON, files, flush and fsync, wall clocks and event streams: events are typed values, one actor stands for all of the world, a record of the world is not told from one of the agent, a cause is the number of an event, and run ids are on the lines the log check reads. A cause written with a padded number, such as `run:07`, is not modelled.
- Event types that do not touch authority (transcripts, facts, summaries, guidance, spend) are one constructor, `Record`, which says whether its reducer takes it.
- Unicode: whitespace is Python's list, case folding is ASCII with the few letters that fold to it, and the tables for `\w`, `isalpha` and `islower` are parameters.
- The lookup of a profile by name in `StreamParser`: the parser takes the grammar of the profile.
- Bus.Bus.Emit: errors outside `Exception`, such as an interrupt, are not modelled; a failure is one of three kinds.
- EvidenceCheck.LogFailures: the hash and reality checks that `evidence_check` adds to it are not modelled.
- Agreement.DecideAgrees: is about a post and a decision with nothing written between them, as the kernel writes them when no subscriber emits in between; `Provenance.DecisionsAllowed` covers every run.
- Authority.EndToEnd: that the mandate a yes was minted on still is the board's mandate at the release is not so, since another may be proposed in the same epoch; that the offer is the same revision is `BoundTerms.SameOffer`.
- Grants.MandateProvenance: the proposal that was posted for and the one decided share id and hash; that they share their bounds rests on the hash, which is a parameter.
- Chain.ChainFailures: counters that the original lets go below zero stop at zero, since both refuse the line; untyped payload values are strings.
- Allotment.Allot: works on the sizes of the strata that are not empty, in key order; the random sample within a stratum is left out, and shares are exact fractions where the original rounds floats.
- Batching.Batches: takes the views in their shuffled order; two views are different by position.
- Wilson: over the reals, with the square root as a parameter that squares to its argument; `rate` is compared before it rounds. `quantile` and the bootstrap are left out as easy or random.
- Models, worlds, prompts, HTTP adapters, training scripts, reporting tables and the React views.
