# Verified model of the bridge's hard parts

This project models, in Dafny, the parts of the Matrix–IRC bridge whose logic is hard to get right, and
proves what they are for. It covers:

* **Formatting** (`src/irc/formatting.ts`). IRC control codes and HTML are two languages with a meaning:
  every visible character with its styles and colours. `irc_codes.dfy` and `html.dfy` define the languages,
  `irc_to_html.dfy` the translator on tokens, `irc_to_html_proofs.dfy` what it preserves, `html_text.dfy`
  escaping and the string form of HTML with a reader for it, and `formatting.dfy` the mutable code: the tag
  stack that all calls share, `htmlTag` and `ircToHtml`. `html_to_irc.dfy` has the loop of `htmlToIrc` that
  rewrites the string it walks along, and `html_round_trip.dfy` what it means and the way back.
* **Netsplits** (`quit_debouncer.dfy`). The debouncer with its window of timestamps, held quits and timers,
  and the membership of the bridged room as a refinement of the membership of the IRC channel.
* **Claims** (`event_claims.dfy`). Many clients receive the same line, one of them forwards it. The class of
  the event broker is in `irc_event_broker.dfy`.
* **Queues** (`queue.dfy`, `queue_pool.dfy`, `queue_pool_class.dfy`). The event loop is a step system: calls
  that are scheduled, timers and finished items are steps that happen in any order. A class has the fields
  of the source, and its methods are tied to the step functions.
* **Ordering per channel** (`channel_buffer.dfy`), the soft queue with its five second limit.
* **Allocation** (`ident_generator.dfy`, `ipv6_generator.dfy`, with numbers in text form in
  `numerals.dfy`), and **templates** (`templates.dfy`, with the regular expressions that they build in
  `regex.dfy`).
* **The connection pool** (`keep_alive.dfy`, `command_reader.dfy`): the PING safety net, and the stream
  reader with its resets and trims.

State that the source changes in place is a class here, whose methods ensure that the new state is a
specification function of the old one; the theorems are about these functions, over every run.

## Where the code and its documentation differ

The model follows the code.

* `htmlTag` says that nothing happens when the tag to close does not exist. It closes the innermost tag:
  `splice(-1)` cuts off the last entry. This is how a reverse code without colour loses a style.
* `htmlToIrc` styles a character by the parity of the elements around it, so `<b><strong>x</strong></b>`
  loses its bold; every closing tag ends all colours; and a font's text that begins with a comma and a digit
  is read as a background. The exact condition is in the table. Text such as `1 < 2 and 3 > 2` loses what
  stands between its brackets.
* `stripIrcFormatting` does not know strikethrough, and drops a comma behind a colour code that `ircToHtml`
  shows.
* `QueuePool` promises first in, first out. Overflow items do leave in order, but a newcomer can take the
  queue that has just become free, and then the waiting item is rejected, unless the newcomer has finished
  before the answer.
* The debouncer waits for a delay before it sends held quits, but only a rejoin starts the timer. Nick
  changes go past the debouncer, and a flush awaits each leave, so a nick can be back before its leave is
  sent.
* The PING safety net keeps one timer and one connection for each client. A PONG for another connection, or
  one written after the close of a replaced connection, clears the timer of a PING that stays unanswered.
* `bufferRequestToChannel` keeps requests in order unless one "takes longer" than five seconds. The time a
  request itself waited counts too: three requests of three seconds each are enough for an overlap.
* A comment in `IdentGenerator` shows illegal characters turned into underscores. They are dropped.
* The ident queue keeps requests apart by user alone, so a request for a second domain is answered with the
  name made for the first.
* IPv6 blocks may start anywhere, but numbers beyond 2^53 are rounded, and then addresses repeat.

## Model

| member | source | states |
|---|---|---|
| IrcCodes.ForegroundRead | src/irc/formatting.ts:271-334 | A colour code with up to two digits sets the foreground and is read as a whole, when no further digit belongs to it and no background follows |
| IrcCodes.BackgroundRead | src/irc/formatting.ts:271-334 | With a comma and one or two digits behind them it sets both colours |
| IrcCodes.ColourForms | src/irc/formatting.ts:271 | Every text behind a colour code has one of these two forms |
| IrcCodes.SimpleCodeRead | src/irc/formatting.ts:271-313 | The seven other codes, by their characters; every other character stands for itself |
| IrcCodes.ColoursRead | src/irc/formatting.ts:316-334 | Foreground and background after a colour code (the mIRC colour of each number, nothing for a number above 15, cleared without digits), after a reverse and after a reset |
| IrcToHtmlSpec.CloseTagRuns | src/irc/formatting.ts:133-149 | Whatever elements are open, the tags that closing emits are matched by them, and leave exactly the elements of the new stack open; the reopened ones carry the current colours |
| IrcToHtmlSpec.StepNests | src/irc/formatting.ts:278-341 | The tags of any one code, \x16 and the absent tag included, take the open elements to those of the new stack |
| IrcToHtmlSpec.OutputBalanced | src/irc/formatting.ts:258-342 | The output is well nested for every text |
| IrcToHtmlProofs.CloseTagContents | src/irc/formatting.ts:135-149 | Closing drops exactly one entry of the stack: the one looked for, or the last one when it is absent; the others keep their number although reopened in reverse |
| IrcToHtmlProofs.CloseTagRemoves | src/irc/formatting.ts:135-149 | Closing an open tag leaves exactly the other tags open |
| IrcToHtmlProofs.StepSimulates | src/irc/formatting.ts:278-341 | After each code (a reverse only while coloured) the open elements, the stack and the colour registers stand for what an IRC client would show |
| IrcToHtmlProofs.MeaningPreserved | src/irc/formatting.ts:258-342 | Every visible character is enclosed by exactly the styles toggled on since the last reset and a font with exactly the current colours, for all texts in which each \x16 occurs while a colour is set or while no style is on |
| IrcToHtmlProofs.ReverseUncoloured | src/irc/formatting.ts:298-305 | In every state without colour in which no tag is open twice, a reverse keeps the styles if and only if nothing is open or a font is; the colours stay plain |
| IrcToHtmlProofs.ReverseAfterText | src/irc/formatting.ts:298-305 | So it is after every text that leaves no colour set, in the output of the whole text |
| IrcToHtmlProofs.ReverseLosesStyle | src/irc/formatting.ts:298-305 | For each style: a text that turns it on and then reverses shows its character differently |
| IrcToHtmlProofs.StackBound | src/irc/formatting.ts:109-151 | In every state a text leads to, at most 7 tags are open (each style once, one font or two while coloured) and the next code emits at most 14 tags |
| IrcToHtmlProofs.TranslateText | src/irc/formatting.ts:278-341 | The text between the tags is the text without its codes |
| Formatting.HtmlTag | src/irc/formatting.ts:109-151 | htmlTag on the shared stack emits the rendered tags of the specification and leaves its stack |
| Formatting.Reopen | src/irc/formatting.ts:143-148 | The recursive calls that reopen tags push them again and emit them with the current colours |
| Formatting.ClosingText | src/irc/formatting.ts:138-141 | The loop over the removed tags closes them innermost first |
| Formatting.OpeningText | src/irc/formatting.ts:117-131 | The text of an opening tag, with the attributes of the current colours |
| Formatting.LastIndexOf | src/irc/formatting.ts:135 | The last index of the tag on the stack, or -1 |
| Formatting.Formatter.OnMatch | src/irc/formatting.ts:278-341 | The callback for one match emits the tags of its code and moves the captured state, possibly to a new object, without touching the defaults |
| Formatting.Formatter.IrcToHtml | src/irc/formatting.ts:258-342 | The result is a function of the text alone, and the history array shared by all calls is empty again afterwards |
| Formatting.TranslateEscaped | src/irc/formatting.ts:258-278 | Translating the escaped text and copying its characters is the same as rendering the translation of the text |
| Formatting.ReadHtmlOf | src/irc/formatting.ts:258-342 | Read as HTML, the returned string is the list of tags and characters of the translation |
| Formatting.IrcToHtmlMeaning | src/irc/formatting.ts:258-342 | Meaning preservation for strings, under the condition of MeaningPreserved: reading the returned HTML gives what an IRC client shows |
| Formatting.StyledText | src/irc/formatting.ts:281-296 | A text behind one of the five style codes becomes that text, escaped, in the element b, code, i, del or u |
| Formatting.ColouredText | src/irc/formatting.ts:314-334 | A text behind a colour code becomes that text in a font with the colours of its numbers |
| Formatting.IrcToHtmlContent | src/irc/formatting.ts:258-342 | For every text the returned HTML is balanced and its text is the text without codes |
| Formatting.EscapeReadBack | src/irc/formatting.ts:82-90 | escapeHtmlChars has a left inverse: reading the escaped text as HTML gives the text back, without tags |
| HtmlText.EscapeIsMap | src/irc/formatting.ts:82-90 | The six successive replacements are one character map |
| HtmlText.TokenizeEscaped | src/irc/formatting.ts:260-271 | Escaping changes no code: the codes and their arguments are found in the escaped text as in the text |
| HtmlText.ReadRender | src/irc/formatting.ts:117-141 | The tags and escaped characters that are written are read back as they were |
| Formatting.StripKeepsVisibleIff | src/irc/formatting.ts:153-159 | stripIrcFormatting gives the visible characters if and only if there is no strikethrough code and no comma directly behind a colour code that starts no background |
| HtmlToIrc.ReplaceHitsHere | src/irc/formatting.ts:218-237 | While no closing tag starts before the loop index, replacing the first occurrence replaces the one at the index |
| HtmlToIrc.NoneBeforeReplacement | src/irc/formatting.ts:218-238 | A replacement at the index makes no closing tag start before the end of the new text |
| HtmlToIrc.TryCloseTags | src/irc/formatting.ts:226-240 | The inner loop, which goes on after a match, rewrites at most one closing tag, the first that matches |
| HtmlToIrc.FixUpAt | src/irc/formatting.ts:212-243 | One turn of the loop makes progress and keeps what the finished string will be |
| HtmlToIrc.FixUpCloses | src/irc/formatting.ts:197-243 | For every string the loop that rewrites the string it is indexing ends, and gives what one pass over the original string gives |
| HtmlToIrc.ReplaceEach | src/irc/formatting.ts:193-196 | The loop over a list of replacements applies them one after the other |
| HtmlToIrc.Convert | src/irc/formatting.ts:161-256 | Nothing without input or when sanitising changes the input; else the whole conversion |
| HtmlRoundTrip.ReplaceOpen | src/irc/formatting.ts:182-196 | Replacing one opening tag rewrites exactly the elements of that name |
| HtmlRoundTrip.ReplaceFont | src/irc/formatting.ts:187-196 | Replacing the tag of one colour rewrites exactly the fonts of that colour |
| HtmlRoundTrip.FixesMarkup | src/irc/formatting.ts:197-243 | On markup with its opening tags replaced, the pass turns each closing tag into a reset and the codes that stay open |
| HtmlRoundTrip.IrcOfMarkup | src/irc/formatting.ts:181-255 | The conversion of any style and font markup is its code string: nothing else is replaced, stripped or unescaped |
| HtmlRoundTrip.ReadMarkup | src/irc/formatting.ts:171-176 | A browser reads the markup as its tags and characters: b and strong are bold, i and em italics, u underlines, del strikes, code is monospace, font sets the colour |
| HtmlRoundTrip.HtmlToIrcMeaning | src/irc/formatting.ts:161-256 | For well-nested style and font markup, as a browser reads it: an IRC client shows each character with the styles that an odd number of elements around it have, and with the colour of the font opened last unless an element was closed since |
| HtmlRoundTrip.HtmlToIrcKeepsMeaning | src/irc/formatting.ts:161-256 | It shows what the browser shows if and only if no character lies inside an even, non-zero number of elements of one style, each has the colour of its innermost font, and no font's text begins with a comma and a digit |
| HtmlRoundTrip.RoundTrip | src/irc/formatting.ts:161-342 | htmlToIrc and then ircToHtml give HTML that a browser shows like the original, under exactly the same condition |
| HtmlRoundTrip.RawTextKeptIff | src/irc/formatting.ts:244-245 | A text without tags that the conversion knows is kept if and only if no opening bracket has a character other than a closing bracket behind it and a closing bracket later |
| QuitDebouncer.Service.constructor | src/bridge/QuitDebouncer.ts:19-37 | A fresh record for every server and no timers |
| QuitDebouncer.Service.OnJoinEvent | src/bridge/QuitDebouncer.ts:46-83 | A join of a held nick is swallowed, releases the nick, and starts the channel's timer if there is none; all other joins pass |
| QuitDebouncer.Service.Fire | src/bridge/QuitDebouncer.ts:74-96 | The timer takes the held nicks of its channel, the channel's entry and its mark |
| QuitDebouncer.Service.DebounceQuitEvent | src/bridge/QuitDebouncer.ts:107-150 | A quit passes unless more than the threshold were seen in the window; else its nick is held in each of its channels |
| QuitDebouncer.PrunedIsWindow | src/bridge/QuitDebouncer.ts:112-122 | The list that is pruned at each quit equals the same filter on the full history of quits |
| QuitDebouncer.RunTimestamps | src/bridge/QuitDebouncer.ts:112-133 | Over every run the kept timestamps are the pruned list of the times of its quits, and as many quits are let through in any window as that list allows |
| QuitDebouncer.RateBound | src/bridge/QuitDebouncer.ts:112-133 | Over every run of a fresh debouncer that is switched on, with a non-decreasing clock: at most quitsPerSecond of the quits in any window of one second are let through |
| QuitDebouncer.PassesIffFewRecent | src/bridge/QuitDebouncer.ts:107-135 | Over every run of a fresh debouncer that is switched on, with a non-decreasing clock: a quit is let through if and only if at most quitsPerSecond quits, itself included, have a time in the second that ends with it |
| QuitDebouncer.NickChange | src/irc/IrcEventBroker.ts:399-410 | A nick change keeps the refinement if and only if the new nick is not held in the channel |
| QuitDebouncer.LeaveSentIff | src/irc/IrcEventBroker.ts:225-265 | A leave that a flush sends late keeps the refinement if and only if its nick is neither on the channel again nor held again |
| QuitDebouncer.StepRefinesIff | src/irc/IrcEventBroker.ts:378-410 | Room members = IRC members, held nicks and nicks whose leave is under way, in every channel, with nobody both held and on IRC: joins, quits, parts and the timer always keep this; nick changes and late leaves exactly when they are harmless in the sense of the two rows above |
| QuitDebouncer.StepOneTimer | src/bridge/QuitDebouncer.ts:68-82 | A channel has one pending timer if it is in existingTimeouts, else none |
| QuitDebouncer.MessagesChangeMembership | src/irc/IrcEventBroker.ts:378-398 | A join is swallowed only for a member of the room, and forwarded only for a nick that is not in the room or whose leave is under way; a quit concerns only members; a flush takes only members who are not on the channel |
| QuitDebouncer.RunRefinesIff | src/irc/IrcEventBroker.ts:225-410 | Over every run the refinement holds in each state if and only if every nick change and every late leave in it is harmless |
| QuitDebouncer.RunRefines | src/bridge/QuitDebouncer.ts:46-150 | After every run a channel has at most one timer and nobody is leaving without a leave to be sent; and the refinement holds if nick changes and leaves were harmless |
| QuitDebouncer.NoLeavesLeft | src/bridge/QuitDebouncer.ts:66-96 | Once all leaves of a channel are sent, its room has the IRC members and the held nicks and nobody else |
| QuitDebouncer.FlushInOneGo | src/irc/IrcEventBroker.ts:225-265 | The timer and its leaves with nothing in between are possible and harmless: the room then equals the IRC channel, and nobody is held or leaving |
| QuitDebouncer.QuitsConserved | src/bridge/QuitDebouncer.ts:46-150 | Over every run without a change to a held nick, for each channel and nick: suppressed quits = cancelled by a rejoin + taken by a flush + still held; and taken = leaves sent + leaves to be sent |
| QuitDebouncer.StartedIffRejoined | src/bridge/QuitDebouncer.ts:66-82 | From any state without a timer for a channel, a timer for it is started in the run if and only if a held nick rejoins the channel in it |
| QuitDebouncer.HeldUntilRejoin | src/bridge/QuitDebouncer.ts:66-82 | Until then held nicks stay held, and stay in the room in every state that refines |
| QuitDebouncer.FlushTakesStillHeld | src/bridge/QuitDebouncer.ts:74-96 | After any run without a change to a held nick, the timer takes a nick if and only if a quit of it was held or suppressed that was neither cancelled nor taken before |
| QuitDebouncer.RejoinDuringFlush | src/irc/IrcEventBroker.ts:225-265 | The input for a leave that comes too late: from every state, a nick that rejoins between the timer and its leave ends up in the channel but not in the room |
| EventClaims.ProcessedDict.ClaimHash | src/util/ProcessedDict.ts:42-51 | A claim overwrites the entry of its hash only; NAMES claims have no time |
| EventClaims.ProcessedDict.ListExpired | src/util/ProcessedDict.ts:63-76 | The loops list exactly the entries that have a time and are older than ten minutes |
| EventClaims.ProcessedDict.Clean | src/util/ProcessedDict.ts:59-89 | A run of the cleaner deletes exactly those entries |
| IrcEventBroker.IrcEventBroker.AttemptClaim | src/irc/IrcEventBroker.ts:135-165 | A line without prefix, command or arguments is dropped; else the client claims it if nobody has, if it has itself, or if the owner has no connection |
| EventClaims.ClaimAt | src/irc/IrcEventBroker.ts:135-165 | What one event does to the claim on one line, whatever else happens: only a successful claim on this line or its expiry changes it |
| EventClaims.ClaimFoundIff | src/irc/IrcEventBroker.ts:141-164 | While a claim's owner is live, another client is refused a line that is the same text (sender, command and arguments run together); any other line gets the answer it would have got without the claim |
| EventClaims.SharedIffSameArgs | src/irc/IrcEventBroker.ts:141-164 | For lines of one sender with one command, the second is forwarded if and only if the arguments, as one text, differ |
| EventClaims.NewLineForwarded | src/irc/IrcEventBroker.ts:135-164 | Over every run: a well-formed line whose text is new on its server is forwarded by the client that receives it, whoever owns other lines |
| EventClaims.OwnershipMoves | src/irc/IrcEventBroker.ts:151-163 | An unpurged claim changes hands only to a client that receives the line while the owner is not live |
| EventClaims.OwnerForwardsAll | src/irc/IrcEventBroker.ts:135-165 | While the owner is live and the claim unpurged, the owner forwards each copy it receives and nobody else forwards any |
| EventClaims.ExactlyOneForwarder | src/irc/IrcEventBroker.ts:135-165 | For any number of clients and copies, in any interleaving with other lines and cleaner runs: the first claimant forwards exactly its copies, and the others none |
| EventClaims.PurgedIsDuplicated | src/util/ProcessedDict.ts:69-85 | If the claim is purged between two clients' copies, both forward the line |
| EventClaims.OthersForwardNoneIff | src/irc/IrcEventBroker.ts:135-165 | Over every run in which the claim is the owner's or nobody's at first: no other client forwards the line if and only if each copy that reaches another client finds it claimed by an owner who is live |
| EventClaims.NamesNeverPurged | src/util/ProcessedDict.ts:46-50 | No cleaner run removes a claim on NAMES |
| EventClaims.KeptTenMinutes | src/util/ProcessedDict.ts:59-89 | The cleaner removes a claim if and only if it is more than ten minutes old (claims without a time, or with time zero, stay) |
| EventClaims.OneForwarderForTenMinutes | src/util/ProcessedDict.ts:59-89 | So for all that comes within ten minutes of the first copy, whatever the cleaner does, the first claimant forwards exactly its copies and the others none |
| EventClaims.NamesExactlyOneForwarder | src/util/ProcessedDict.ts:46-50 | For NAMES the exact count holds under arbitrary cleaner runs |
| Queue.IndexOfId | src/util/Queue.ts:100-104 | The first waiting request with the id, if there is one |
| Queue.Queue.EnqueueItem | src/util/Queue.ts:99-118 | A waiting id gets the promise of the one that waits; else the request is appended and, without interval, a consume call is scheduled |
| Queue.Queue.CoConsume | src/util/Queue.ts:124-137 | Nothing while an item runs; an empty queue retries and wakes whoever waits for it; else the first item starts |
| Queue.Queue.Resume | src/util/Queue.ts:136-155 | When the item is done, well or badly, its promise is settled and the queue goes on at once or after the interval |
| Queue.Queue.RunTick | src/util/Queue.ts:111-116 | A scheduled consume call runs once |
| Queue.Queue.RunTimer | src/util/Queue.ts:120-122 | A retry timer runs its consume call once, no earlier than it was set for |
| Queue.Queue.WaitUntilFree | src/util/Queue.ts:74-88 | A free queue resolves at once, a busy one keeps the promise |
| Queue.StepKeepsOrder | src/util/Queue.ts:99-155 | Accepted = started then waiting, started = settled then current: items start in the order accepted, one at a time, each settled once after it ran; waiting ids differ |
| Queue.EnqueueAnswers | src/util/Queue.ts:99-118 | The promise that enqueue returns is that of the waiting item with the id, and then nothing changes; else that of a new item with the given thing, accepted last |
| Queue.StepKeepsWakeUp | src/util/Queue.ts:99-155 | Immediate mode: with nothing running, waiting items or waiters always have a consume call pending |
| Queue.StepKeepsTimer | src/util/Queue.ts:120-155 | Interval mode: a pending timer or an item that runs, never both and never neither |
| Queue.StepKeepsSpacing | src/util/Queue.ts:120-155 | Interval mode: each start is at least the interval after the previous item ended |
| Queue.StepResolves | src/util/Queue.ts:74-97 | A promise asked of a free queue is resolved at once; promises are resolved only while the queue is free, and then all that wait |
| Queue.PromisesConserved | src/util/Queue.ts:74-97 | Over every run each promise asked for is resolved or waits |
| Queue.ImmediateMode | src/util/Queue.ts:99-155 | The first two in every reachable state without interval |
| Queue.IntervalMode | src/util/Queue.ts:55-155 | Order, timer and spacing in every reachable state with interval |
| Queue.FinishingDrains | src/util/Queue.ts:124-155 | Once an item runs, finishing items is all it takes: everything accepted is settled and all waiters are woken |
| QueuePool.FreeQueue | src/util/QueuePool.ts:113-120 | The first queue without items, if there is one |
| QueuePool.PlacedOnArrival | src/util/QueuePool.ts:62-87 | A request goes at once to the first idle queue and changes nothing else; only when all are busy it goes to overflow, or is merged with the one waiting there under its id |
| QueuePool.StepStructured | src/util/QueuePool.ts:62-111 | Every step keeps: at most one item on each pool queue; whoever waits is registered on every queue, all busy; overflow items are handled in arrival order, one at a time |
| QueuePool.StepCount | src/util/QueuePool.ts:62-111 | No step loses or duplicates a request |
| QueuePool.PoolInvariant | src/util/QueuePool.ts:62-120 | In every reachable state: the above, and each accepted request is in exactly one of overflow, one queue, settled |
| QueuePool.AtMostSizeRun | src/util/QueuePool.ts:36-42 | In every state that a pool of `size` queues reaches, it has `size` queues, at most `size` items run, and each runs alone on its queue |
| QueuePool.StarvedIffTaken | src/util/QueuePool.ts:90-111 | In every run, whatever happens between the wake-up of a waiting request and the answer to it: the request is rejected if and only if in between a newcomer was placed on the queue that woke it and has not finished there |
| QueuePool.NewcomerStarves | src/util/QueuePool.ts:62-75 | The input: any request that arrives right after a wake-up is placed on that queue, and the waiting one is rejected |
| QueuePoolClass.QueuePool.constructor | src/util/QueuePool.ts:36-46 | A pool of new queues and an overflow queue |
| QueuePoolClass.QueuePool.FreeQueue | src/util/QueuePool.ts:113-120 | The loop finds the first free queue |
| QueuePoolClass.QueuePool.EnqueueItem | src/util/QueuePool.ts:62-87 | enqueue on the queue objects does what the specification says to all of them |
| QueuePoolClass.QueuePool.OnOverflow | src/util/QueuePool.ts:90-111 | So does onOverflow: place the item, or wait on every queue |
| QueuePoolClass.QueuePool.WaitOnAll | src/util/QueuePool.ts:100-102 | onceFree is called on each queue once |
| QueuePoolClass.QueuePool.OnFree | src/util/QueuePool.ts:103-110 | The continuation places the item or rejects it |
| QueuePoolClass.QueuePool.RunTick | src/util/Queue.ts:112-117 | A consume call of a pool queue, and the wake-up it may cause |
| QueuePoolClass.QueuePool.FinishItem | src/util/Queue.ts:136-155 | A finished item of a pool queue, and the wake-up it causes |
| QueuePoolClass.QueuePool.RunOverflowTick | src/util/QueuePool.ts:43-45 | A consume call of the overflow queue, which may start onOverflow |
| QueuePoolClass.QueuePool.FinishOverflow | src/util/QueuePool.ts:43-45 | A placed or rejected overflow item makes room for the next |
| IdentGenerator.Sanitised | src/irc/IdentGenerator.ts:236-250 | No delimiter in the result, and a letter first |
| IdentGenerator.SanitisedKeeps | src/irc/IdentGenerator.ts:236-250 | The sanitised form is the small letters, digits and special characters of the text in order, capitals made small, with an M in front exactly when the first of them is no letter |
| IdentGenerator.SanitisedItself | src/irc/IdentGenerator.ts:236-250 | A text of small letters and other legal characters that starts with a letter is its own sanitised form |
| IdentGenerator.IllegalDropped | src/irc/IdentGenerator.ts:239-242 | An illegal character anywhere makes no difference |
| IdentGenerator.CapitalIsSmall | src/irc/IdentGenerator.ts:237 | A capital anywhere gives what its small letter gives |
| IdentGenerator.SuffixFor | src/irc/IdentGenerator.ts:218-234 | Whatever the counts are, a suffix that is found is below the maximum |
| IdentGenerator.SuffixForIs | src/irc/IdentGenerator.ts:218-234 | The suffix is n if and only if n is the count for the longest prefix with room: fewer than 9, 99, 999, 9999 names for one to four digits, all shorter numbers of digits being used up |
| IdentGenerator.IdentGenerator.GetSuffixForUsername | src/irc/IdentGenerator.ts:218-234 | The loop over prefix lengths finds that suffix |
| IdentGenerator.IdentGenerator.GenerateIdentUsername | src/irc/IdentGenerator.ts:165-209 | The loop ends: a short name as it is; else the first candidate that no other user holds, all earlier ones being held by others; or an error with every permitted candidate held |
| IdentGenerator.FreshIdent | src/irc/IdentGenerator.ts:165-209 | When nobody on the domain holds it and a suffix is found, the answer is the first ten characters of the sanitised id; a shorter one is the answer in any case |
| IdentGenerator.IdentGenerator.Process | src/irc/IdentGenerator.ts:135-157 | The name is stored for the user on the domain, over an existing one, and nothing else changes; an error stores nothing |
| IdentGenerator.SharedIdent | src/irc/IdentGenerator.ts:142-149 | On the path that asks for no unique name it is the answer in any case, and it is stored |
| IdentGenerator.CandidateLength | src/irc/IdentGenerator.ts:258-262 | Every permitted candidate has exactly ten characters |
| IdentGenerator.CandidateForm | src/irc/IdentGenerator.ts:258-262 | The later candidates are the front of the name, a delimiter and a number of at most four digits |
| IdentGenerator.CandidatesDiffer | src/irc/IdentGenerator.ts:180-209 | All names tried in one call are distinct |
| IdentGenerator.RanOutNeedsUsers | src/irc/IdentGenerator.ts:180-191 | An error needs as many other users of the domain as there are candidates |
| IdentGenerator.GeneratedOnce | src/irc/IdentGenerator.ts:165-209 | When full-length names are unique in the store, the answer is determined, and an error if and only if no suffix is found or every candidate is held by others |
| IdentGenerator.UniqueNames | src/irc/IdentGenerator.ts:135-209 | After any sequence of unique requests, two users of a domain with long ids have different names of exactly ten characters |
| IdentGenerator.MergedIffSameUser | src/irc/IdentGenerator.ts:99-105 | A request made while another waits is merged with it if and only if the user is the same, whatever the domains |
| Numerals.ReadPrint | src/irc/Ipv6Generator.ts:102-108 | Reading a printed number, decimal or hexadecimal, gives the number |
| Ipv6Generator.Ipv6Generator.ProcessRequest | src/irc/Ipv6Generator.ts:81-130 | The counter is taken from the cache or the database, incremented in both, and its address set; only real users have it stored |
| Ipv6Generator.GroupsOfFour | src/irc/Ipv6Generator.ts:106-108 | Every group after the first has four digits, the first one to four (section 2.2 of RFC 4291) |
| Ipv6Generator.SuffixReadBack | src/irc/Ipv6Generator.ts:106-108 | Without its colons the suffix reads as the number it was made of |
| Ipv6Generator.BlockStartsAt | src/irc/Ipv6Generator.ts:97-104 | A block given as a hexadecimal number, in small letters or capitals and whatever follows it, starts at that number as the runtime rounds it |
| Ipv6Generator.GroupedBlockStartsAt | src/irc/Ipv6Generator.ts:97-104 | So does one with colons in groups of four digits |
| Ipv6Generator.NextCount | src/irc/Ipv6Generator.ts:86-95 | Cached or not, the next count is one more than the stored one |
| Ipv6Generator.AddressInBlock | src/irc/Ipv6Generator.ts:81-110 | A user whose homeserver has a block from n on gets the prefix and a suffix that reads as n plus the next count of that homeserver |
| Ipv6Generator.AddressOutsideBlocks | src/irc/Ipv6Generator.ts:81-110 | Everyone else, the bot included, gets a suffix that reads as the next count of the network |
| Ipv6Generator.RequestStores | src/irc/Ipv6Generator.ts:115-129 | A request stores its count, and for a real user the address it answers, and nothing else |
| Ipv6Generator.CacheKeyInjective | src/irc/Ipv6Generator.ts:38-48 | Counter keys of domains without a slash are told apart, whatever the homeservers |
| Ipv6Generator.NetworkKeyUniqueIff | src/irc/Ipv6Generator.ts:38-48 | The counter of a network shares its cache entry with no other counter if and only if its domain has no slash |
| Ipv6Generator.SharedEntryRepeats | src/irc/Ipv6Generator.ts:86-95 | What a shared entry does: after a restart a counter goes on from the stored count of the other one |
| Ipv6Generator.CacheIsStored | src/irc/Ipv6Generator.ts:86-128 | After every request of a run with restarts, the cached counters equal the stored ones |
| Ipv6Generator.AddressesDiffer | src/irc/Ipv6Generator.ts:81-130 | Over any run of requests and restarts, addresses of one counter and prefix are pairwise distinct while count + block start is at most 2^53 |
| Ipv6Generator.DistinctIffPrecise | src/irc/Ipv6Generator.ts:102 | For numbers as JavaScript rounds them: the first n (four or more) of a block are distinct if and only if start + n is at most 2^53 |
| Ipv6Generator.BlockDistinctIffPrecise | src/irc/Ipv6Generator.ts:97-104 | So it is for the start that any configured block is read as |
| CommandReader.RedisCommandReader.BeginRead | src/pool-service/CommandReader.ts:33-39 | A read from `$` skips what came since the last answer; a read from an id does not |
| CommandReader.RedisCommandReader.Dispatch | src/pool-service/CommandReader.ts:47-55 | The loop dispatches the commands in order and leaves the cursor on the last |
| CommandReader.RedisCommandReader.EndRead | src/pool-service/CommandReader.ts:40-57 | No answer resets the cursor, an answer is dispatched |
| CommandReader.RedisCommandReader.TrimCommandStream | src/pool-service/CommandReader.ts:86-110 | No trim at the head; else by id or by length |
| CommandReader.DispatchedIncreasing | src/pool-service/CommandReader.ts:33-57 | Over any run the dispatched ids increase strictly, whatever resets and trims there are: nothing is dispatched twice |
| CommandReader.SkippedAfterReset | src/pool-service/CommandReader.ts:33-46 | After a read that brought nothing, the next read skips exactly what was unread and what was added until then |
| CommandReader.NothingSkippedAfterAnswer | src/pool-service/CommandReader.ts:33-57 | After a read that was answered, the next read skips nothing and goes on from the last command |
| CommandReader.TrimRemoves | src/pool-service/CommandReader.ts:86-110 | A trim removes exactly the entries before the cursor, or all but the last 100000; nothing at the head of the stream |
| CommandReader.TrimKeepsUnreadIff | src/pool-service/CommandReader.ts:86-110 | A trim keeps the unread entries if and only if it is by id, or at most 100000 are unread, or the cursor is at the head |
| CommandReader.EntriesConservedIff | src/pool-service/CommandReader.ts:33-110 | Over every run, each entry ever added is exactly one of dispatched, skipped by a read from `$`, still to be read, if and only if every trim in it met the condition of TrimKeepsUnreadIff |
| CommandReader.EntriesConserved | src/pool-service/CommandReader.ts:33-97 | With MINID this is so for every run |
| CommandReader.TrimmingInvisible | src/pool-service/CommandReader.ts:86-110 | The same entries are dispatched with trims at arbitrary points as without any: always with MINID, and with MAXLEN when every trim met the condition of TrimKeepsUnreadIff |
| CommandReader.MinIdHarmless | src/pool-service/CommandReader.ts:92-97 | With MINID every trim of every run meets that condition |
| IrcEventBroker.IrcEventBroker.BufferRequestToChannel | src/irc/IrcEventBroker.ts:568-599 | The new promise of the channel: started when the one before settles or after five seconds, and never when that one is rejected without a message in time |
| ChannelBuffer.StartsInTime | src/irc/IrcEventBroker.ts:573-597 | A request starts no earlier than it arrives and at most 5000 ms later |
| ChannelBuffer.StartsWhenFree | src/irc/IrcEventBroker.ts:573-597 | A request on a channel that is free starts when it arrives; one that waits starts when the promise before it settles, if that is within 5000 ms, and else after 5000 ms |
| ChannelBuffer.EndsWhenDone | src/irc/IrcEventBroker.ts:588-597 | Its promise settles when its duration has passed since its start, and never without one |
| ChannelBuffer.StartsInOrder | src/irc/IrcEventBroker.ts:568-599 | Requests of a channel start in arrival order, for any arrivals and durations |
| ChannelBuffer.OverlapsIff | src/irc/IrcEventBroker.ts:573-597 | A request overlaps the one before if and only if that one was unfinished 5000 ms after the request arrived |
| ChannelBuffer.OverlapNeedsTimeout | src/irc/IrcEventBroker.ts:573-597 | Any two requests that overlap have a request between them that waited in vain |
| ChannelBuffer.DroppedIff | src/irc/IrcEventBroker.ts:588-597 | A request is never run if and only if the one before is rejected with null or undefined before the wait is over |
| ChannelBuffer.QuickRequestsOverlapIff | src/irc/IrcEventBroker.ts:558-562 | Of three requests that arrive together and take the same time, at most five seconds, the last two overlap if and only if two of them take more than five seconds together |
| ChannelBuffer.ChannelsIndependent | src/irc/IrcEventBroker.ts:569-571 | Calls for other channels make no difference to a channel |
| KeepAlive.IrcConnectionPool.Connected | src/pool-service/IrcConnectionPool.ts:164 | A new connection replaces the one known for its client |
| KeepAlive.IrcConnectionPool.Closed | src/pool-service/IrcConnectionPool.ts:209-217 | A close forgets the connection and leaves the timers |
| KeepAlive.IrcConnectionPool.HandleData | src/pool-service/IrcConnectionPool.ts:182-194 | A PING sets a timer and overwrites the client's entry, without clearing the timer that was there |
| KeepAlive.IrcConnectionPool.HandleWriteCommand | src/pool-service/IrcConnectionPool.ts:258-274 | A text that starts with PONG clears the client's timer; the text is written if there is a connection |
| KeepAlive.IrcConnectionPool.FireTimer | src/pool-service/IrcConnectionPool.ts:189-192 | The timer writes its PONG to the connection of the PING |
| KeepAlive.PingNoticed | src/pool-service/IrcConnectionPool.ts:182-187 | A PING is noticed wherever in the received text it stands |
| KeepAlive.OwnAnswerIsLine | src/pool-service/IrcConnectionPool.ts:189-192 | The pool's own answer is `PONG`, a space, the first argument of the PING and CRLF, on the PING's connection |
| KeepAlive.StepWrites | src/pool-service/IrcConnectionPool.ts:258-274 | Each text of the bridge goes out once and verbatim on the connection known for the client, or nowhere; only these and the timers write |
| KeepAlive.WriteKeepsIff | src/pool-service/IrcConnectionPool.ts:258-274 | A write keeps an unanswered PING guarded or answered if and only if it is no PONG that clears the last timer for it, or the connection known for the client is the one of the PING |
| KeepAlive.RunCoversIff | src/pool-service/IrcConnectionPool.ts:182-274 | Over every run a PING is answered in time or guarded by a timer in each state, if and only if no PONG clears its last timer and goes elsewhere |
| KeepAlive.EveryPingAnswered | src/pool-service/IrcConnectionPool.ts:182-274 | For any interleaving of PINGs, PONGs, timers, connects and closes, those of the client included: a PING is answered within ten seconds, provided that at each PONG the bridge writes for the client, the connection known for it is the one of the PING (sections 3.7.2 and 3.7.3 of RFC 2812) |
| KeepAlive.OnlyConnectionAnswered | src/pool-service/IrcConnectionPool.ts:164-274 | So it is for a connection that is known as its client's when the PING comes, as long as no connection of the client is opened or closed |
| KeepAlive.SecondConnectionTakesPong | src/pool-service/IrcConnectionPool.ts:258-272 | The condition is needed: after a reconnect, a PONG for the new connection removes the timer of the old one |
| KeepAlive.ReplacedCloseForgets | src/pool-service/IrcConnectionPool.ts:209-272 | Also when it is open and the only one: once the replaced connection closes, the client's new connection is forgotten, and a PONG clears its timer and is written nowhere |
| Regex.ParseEscape | src/irc/IrcServer.ts:864-867 | An escaped text, read as an expression, stands for itself |
| Regex.MatchBetween | src/irc/IrcServer.ts:544-576 | Backtracking, leftmost, lazy or greedy: a group between two texts takes exactly what was put there, for lazy groups if it has no colon |
| Regex.ExecBetween | src/irc/IrcServer.ts:544-576 | Whatever such an expression matches is somewhere in the text, with the group between the two texts |
| Templates.RenderTemplate | src/util/Template.ts:17-26 | The loop replaces the first occurrence of each placeholder |
| Templates.TemplateToRegex | src/irc/IrcServer.ts:835-862 | Both loops replace all occurrences, with the escape between them |
| Templates.RenderedIffOnce | src/util/Template.ts:17-26 | Rendering fills in a template if and only if no variable occurs twice |
| Templates.RegexOfTemplate | src/irc/IrcServer.ts:835-862 | Despite the double escape the expression of a template is: text in front, the group, text behind with the homeserver |
| Templates.NickRoundTrip | src/irc/IrcServer.ts:544-582 | The nick is got back from its user id, and the server claims that id, for every template with the nick once and any text in which no placeholder begins |
| Templates.ClaimedHasForm | src/irc/IrcServer.ts:544-556 | A user id is claimed only if it holds the text in front of the nick, some name, and the text behind it with the homeserver |
| Templates.UserIdsDiffer | src/irc/IrcServer.ts:578-582 | Different nicks have different user ids |
| Templates.LocalpartAgreesIff | src/irc/IrcServer.ts:535-542 | getUserLocalpart agrees with getUserIdFromNick if and only if the template has `$SERVER` at most once |
| Templates.ChannelRoundTrip | src/irc/IrcServer.ts:606-635 | The channel is got back from its alias if the template names the server at most once; an alias is refused only without a hash on both sides |
| Templates.TwoServersLoseChannel | src/irc/IrcServer.ts:606-635 | If the template names the server twice or more, the alias keeps a placeholder, and no channel is got back |
| Templates.ChannelRoundTripIff | src/irc/IrcServer.ts:606-635 | For templates that begin with a hash: the channel is got back if and only if the server is named at most once |

## Left out

- The Matrix SDK, Redis, the databases, sockets, HTTP, metrics and logging: stores are maps, clocks and times are parameters, a database answer that is not determined is any consistent one.
- `sanitize-html` and `he`: what they make of the input is a parameter of the conversion.
- Client pool and client removal: which nicks have a connection is given with each received line.
- HtmlToIrcMeaning: fonts of other colours than the sixteen names, whose tags are dropped; raw `<` in markup, which the final removal of tags may take for a tag (for text without markup the exact condition is in the table); entities, which the comparison with the sanitised input refuses. Colours are compared by the values that the bridge gives to the sixteen names.
- HtmlTag: does not model the call that would open a tag named `all`, which no caller makes.
- MeaningPreserved: texts with a reverse code while a style is on and no colour is set; what that code keeps and loses is stated for each step.
- StepStructured: the order of callbacks of the promise library is not modelled; between any two steps any other may happen.
- UniqueNames: ids shorter than ten characters and servers reached by IPv6 only, whose names the code does not check, and names that users choose themselves.
- SuffixFor: the count for a prefix is any function that may fail, because the two databases count differently and do not escape the prefix; the text of the error is not told apart.
- ProcessRequest: a crash or an error between storing the address and storing the counter; parseInt's white space, sign and 0x prefix.
- CacheIsStored: domains with a slash, whose counters can share a cache entry, and users without a homeserver, for which the cache and the database use different keys.
- NickRoundTrip: text that ends like the beginning of a placeholder, and domains with a dollar sign; names with line terminators.
- ChannelRoundTripIff: dollar signs in the text of a template that names the server twice, and in the homeserver.
- EveryPingAnswered: timers that fire late; PINGs that are not the first message of a received buffer, which the code does not detect.
- DispatchedIncreasing: ids are numbers here, in Redis they are pairs in the same order.
- `Queue.killAll`, the explicit index of `QueuePool.enqueue`, `claimsAlias`, display names, and NAMES buckets: they add only easier members.
- Object keys with a meaning of their own, such as `__proto__`; strings as UTF-16 code units; numbers other than those of IPv6 addresses are unbounded.
- Admin commands, room creation, configuration, power levels and member list syncing.
