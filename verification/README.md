# Matrimail in Dafny

Matrimail bridges email and Matrix. This project models the parts of it that keep state over time or take
text apart and put it together again, and proves what they promise:

- **Threads.** The cache of conversation threads: which thread an email joins, the two lookup tables that
  replace a search, expiry, the size cap, what a send does to a thread, and saving and restoring it.
  `ThreadState` and `ThreadRuns` are the cache as a value and the events it goes through. The class in
  `ThreadManager` updates maps and shared thread objects in place (sorting as in `Eviction`), `ClientSend` is the
  sending side; each of their methods is proved against a function on the value of the whole cache. The theorems
  about runs are about those functions: what holds for a conversation whatever happens to others
  (`ThreadOwnership`, `ThreadKeys`, `ThreadConversations`, `ThreadMemory`), how long it keeps a thread
  (`ThreadLifetimes`), what the receiver's keys, the resolver and Gmail's conversations lead to (`ThreadLookups`),
  and when the tables answer what a search would (`ThreadExact`, `ThreadDisputes`, `ThreadSplits`, `ThreadPairs`).
- **Reliability.** `Breaker` is the circuit breaker as a machine of atomic steps that any number of calls
  interleave, `Episodes` counts its probes; `CircuitBreaker` is the object and its use by one caller; `Retry` is
  retrying with backoff, and the two are put together in `CircuitBreaker`.
- **Text.** `Utf8`, `Chunking`, `EventSize` and `Sanitize` work on bytes: cutting without splitting a rune,
  spreading a long body over several events, cleaning a string for the log. `QuoteText`, `QuoteReplies`,
  `QuoteStripping`, `QuoteTails`, `QuoteHtml`, `QuoteMarkup` and `Subject` cover quoting a parent under a reply and
  stripping such a quote again. `QuotedArgs` is the command line parser. `Text` holds the string functions these share.
- **Mailboxes.** `ImapSync`, `ImapRuns` and `ImapFirstSync` follow the UIDs of one mailbox through primes and syncs;
  `ImapServer`, `ImapOverlap` and `ImapWindows` through any overlap of them, beside a mailbox that changes, and
  `ImapTasks` shows that the two agree where nothing overlaps;
  `GmailPoller` follows the Gmail history cursor.

Loops and objects of the program are methods and classes here, proved against specification functions; what
the program promises is proved about those functions, for all inputs, all runs or all interleavings.
A run is any finite sequence of events. What the outside decides is a parameter of the event: the time, the
object the allocator hands out (`spare`), the keys a map iteration order picks for eviction, server replies,
random numbers, and whether processing a message succeeds.

## What the proofs found

Some promises hold only under a condition. Each is proved together with that condition.

- A conversation, with what the bridge sends and what comes in, stays together as long as no event drops a key of
  its thread or gives another thread one of its own messages; what happens to all other threads does not matter
  (`ConversationClosed`). It also outlives its cached thread, as far as a send has saved it
  (`ConversationOutlivesThread`).
- A thread does not expire while its conversation goes on: with a message at least every 24 hours, and without
  evictions, it stays in one room (`LivelyConversation`). A thread that was filed or found is found again for 24
  hours (`UsedIsFoundForADay`).
- The first reply to an email that started its thread answers that email (`FirstReplyAnswers`). If the thread had
  left the cache and only the resolver knew it, the reply names no parent, though the email is among its
  References (`FirstReplyAfterResolving`).
- A forwarded email starts a thread but keeps its References, so it takes over the table entries of the thread
  it was forwarded from, and the next reply in that conversation lands in the forward's room
  (`ForwardCapturesReplies`). The lookup table stays exact if and only if those References are unknown
  (`ForwardExact`). The comment at `pkg/email/threading.go:288` promises the opposite.
- A size eviction may take one of a thread's two keys; the thread then stays cached but unknown to the table. It
  can do so if and only if some thread has two keys and the number of keys to evict falls inside the keys of its
  age (`EvictionCanSplitIff`, `EvictionCanBreakIff`). After one compose, the 5000th mail that starts a thread makes
  an eviction that must, whichever keys it takes (`EvictionMustBreak`).
- A half-open episode admits the configured number of probes and one more for each call that still holds the
  counter when the episode opens but has finished its function or went over the limit; no more, and as many can
  come (`EpisodeAdmitsExactly`). With the limit of one it keeps to one probe if and only if every holder still
  runs its function then (`OneProbeIff`). `TwoProbesAtOnce` reaches an episode with two.
- The IDLE recovery reconnects through the breaker from inside a call of the same breaker. Its first reconnect
  attempt is let through, and the recovery can succeed, if and only if the breaker was closed on entry
  (`NestedRecoveryNeedsClosed`); otherwise it opens the breaker again (`NestedRecoveryReopens`).
- `chunk == ""` in the chunking loop cannot be reached, because truncation never returns an empty string. All
  chunks of a valid body are valid if and only if each piece fits as it is or is shrunk to a rune boundary
  (`ChunksAreValidIff`). Text without control characters, "<", ">" and "&" is always cut cleanly
  (`LightTextIsCutCleanly`); some other text is cut inside a rune (`ShrinkingCanSplitARune`).
- `parseQuotedArgs` drops the last argument of a line that ends in a multi-byte rune (`LastArgumentLost`).
- A one-line reply that starts with "On " is stripped to nothing when it comes back, as long as it and the
  sender and date of the attribution below it have no more than 395 characters (`OnReplyIsLost`).
- A reply above a quote without an attribution comes back if and only if no marker fires inside it and its last
  line with anything on it is the sender's own; a last line of other white space, a no-break space say, is cut
  with the quote (`BareQuoteIsCut`).
- A first sync without a baseline skips what is in the mailbox (`FirstSyncSkips`), and the startup backfill
  never reaches a message that was there before it (`PrimeSkips`). The first sync promises to fetch what comes
  after it. It keeps that promise if and only if the mailbox ever held a message (`FirstSyncKeepsPromiseIff`): in
  one that never did the mark stays at 0, and the next sync skips what has arrived (`EmptyMailboxSkips`).
- When the Gmail history has expired, the cursor jumps to its end, and what it jumps over is never read
  (`ExpiryJumps`). Everything else up to the cursor has been read (`StoredTicksPartitionHistory`).
- Overlapping syncs and primes are harmless as long as none begins while another is between looking at the mark
  and writing it (`OverlapOutsideWindowsIsHarmless`). A begin is safe if and only if no other task is in that
  window (`BeginIsSafeIff`); otherwise the mark can go back, two syncs can forward a message twice
  (`OverlapForwardsTwice`), and a backfill and a sync can be at the same message (`BackfillDoublesSync`).

## Model

| member | source | states |
|---|---|---|
| ThreadManagement.ThreadManager.UpdateMessageIDIndex | pkg/email/threading.go:197-216 | every ID of the thread, and its Gmail ID under the receiver, now leads to this object, and nothing else changes |
| ThreadManagement.ThreadManager.RemoveFromMessageIDIndex | pkg/email/threading.go:734-753 | exactly the entries for the thread's IDs, and the Gmail entries that lead to it, are gone |
| ThreadManagement.ThreadManager.CleanupExpiredThreadsIfNeeded | pkg/email/threading.go:660-683 | at most once an hour, exactly the keys of threads unused for 24 hours are dropped and their threads de-indexed |
| ThreadManagement.ThreadManager.EvictOldestThreads | pkg/email/threading.go:686-731 | drops exactly the asked number of keys, none of them used later than a key that stays |
| ThreadManagement.ThreadManager.EnforceCap | pkg/email/threading.go:191-193 | over the maximum, a legal choice of a quarter of it is evicted; otherwise nothing happens |
| ThreadManagement.ThreadManager.CacheThread | pkg/email/threading.go:176-194 | the whole cache after filing a thread under the receiver's key, indexing it and enforcing the cap |
| ThreadManagement.ThreadManager.GetThreadByID | pkg/email/threading.go:152-170 | cleans up, finds the thread under the receiver's key or the bare ID, and marks it used |
| ThreadManagement.ThreadManager.AddToExistingThread | pkg/email/threading.go:439-450 | the Message-ID joins the References once, a known Gmail ID sticks, all other threads are untouched |
| ThreadManagement.ThreadManager.CreateNewThread | pkg/email/threading.go:486-546 | a new object under its bare ID, not indexed yet, then the cap |
| ThreadManagement.ThreadManager.DetermineThread | pkg/email/threading.go:287-343 | the thread and the new cache, by forward, resolver, In-Reply-To, References from the oldest, Gmail ID, or a new thread |
| ThreadManagement.ThreadManager.Resolve | pkg/email/threading.go:293-312 | the resolver's first answer, In-Reply-To before the References |
| ThreadManagement.ThreadManager.FindParent | pkg/email/threading.go:314-329 | the first parent the table knows |
| ThreadManagement.ThreadManager.Receive | pkg/email/processor.go:269-270 | determining and caching as one event of a run, with evictions that are legal choices |
| ThreadManagement.OldestAreLegal | pkg/email/threading.go:705-730 | the front of a sorted listing is a legal choice of victims: every survivor is used at least as recently |
| Eviction.SortedIsOrdered | pkg/email/threading.go:705-716 | the sort returns the same entries, oldest first |
| Eviction.InsertionSort | pkg/email/threading.go:705-716 | the shifting loops sort in place |
| Eviction.InsertedAt | pkg/email/threading.go:709-715 | where the inner loop stops is where the new entry belongs |
| ThreadRuns.RunSound | pkg/email/threading.go:176-216 | over every run whatsoever an index entry leads to a thread that holds that ID, and a thread's tail is one of its own IDs |
| ThreadKeys.RunKeyed | pkg/email/threading.go:176-194 | over every run a key of the cache is the ID of its thread, or a receiver and that ID |
| ThreadRuns.RemovalIsComplete | pkg/email/threading.go:734-753 | in every reachable state, removing a thread by its own IDs leaves no table entry that leads to it |
| ThreadRuns.RunCap | pkg/email/threading.go:191-193 | the cache holds at most 10000 keys between events, in every run |
| ThreadRuns.EvictionCount | pkg/email/threading.go:718-730 | an eviction shrinks the cache by exactly the number asked for |
| ThreadLifetimes.CleanupKeeps | pkg/email/threading.go:660-683 | a key survives a clean-up if and only if the last one is less than an hour old or its thread was used in the last 24 hours |
| ThreadLifetimes.ExpiresIff | pkg/email/threading.go:668-682 | a thread is lost to a clean-up if and only if it was not used for 24 hours and the clean-up is due |
| ThreadLifetimes.CleanupIsHourly | pkg/email/threading.go:660-667 | a clean-up within an hour of the last changes nothing |
| ThreadLifetimes.StepUses | pkg/email/threading.go:151-194 | an event sets the time of a thread's last use to its own or leaves it alone |
| ThreadLifetimes.SpeakingUses | pkg/email/threading.go:176-194 | an answer uses its thread, and so does a message that the bridge sends |
| ThreadLifetimes.LivelyIsUndisturbed | pkg/email/threading.go:660-683 | expiry does not touch the thread of a conversation with a message at least every 24 hours |
| ThreadLifetimes.LivelyConversation | pkg/email/threading.go:660-683 | such a conversation stays in one room, if its thread is not evicted and no other thread claims a message |
| ThreadLifetimes.FoundForADay | pkg/email/threading.go:151-170 | in every run without evictions a key is found by its receiver up to 24 hours after its thread was used |
| ThreadLifetimes.SameForADay | pkg/email/threading.go:151-170 | and it leads to the same thread, unless another one is filed under it |
| ThreadLifetimes.UsedIsFoundForADay | pkg/email/threading.go:151-194 | both hold from any event that files or finds the thread |
| ThreadLookups.ReceiverFindsItsOwn | pkg/email/threading.go:151-185 | a receiver finds what it filed, also if the bare ID leads elsewhere, and lookups under other keys are unchanged |
| ThreadLookups.ReceiversAreApart | pkg/email/threading.go:151-185 | with IDs that hold no bar, filing changes no other receiver's lookups |
| ThreadLookups.JoiningAdds | pkg/email/threading.go:439-451 | an email that joins is added to the References once, behind the others; only a Gmail ID it names replaces the thread's |
| ThreadLookups.ResolvedIff | pkg/email/threading.go:293-312 | the resolver's answer is the one to the first parent it has an answer to, In-Reply-To before the References |
| ThreadLookups.ResolverDecides | pkg/email/threading.go:293-312 | a resolver hit decides: the receiver's thread of that ID, else the bare one, else a new one with that ID, whatever the tables say |
| ThreadLookups.ResolverNamesRoom | pkg/email/threading.go:293-312 | with IDs that hold no bar, the email goes to the room of the thread the resolver names |
| ThreadLookups.CacheLeads | pkg/email/threading.go:212-215 | filing a thread makes its Gmail conversation lead to it, and changes no other entry but those of evicted threads |
| ThreadLookups.GmailMatches | pkg/email/threading.go:334-340 | an email whose headers lead nowhere joins a thread through its Gmail conversation if and only if that leads to it |
| ThreadLookups.RunLeads | pkg/email/threading.go:138-149 | a Gmail conversation keeps leading to its thread in every run that neither drops the thread nor files another one of it |
| ThreadLookups.GmailConversation | pkg/email/threading.go:334-340 | so a later email of the conversation joins the thread that an earlier one joined |
| ThreadExact.LiveThreadsAreDisjoint | pkg/email/threading.go:196-216 | with an exact index, two live threads share no ID |
| ThreadExact.IndexIsScan | pkg/email/threading.go:345-355 | an exact index answers what the linear search over all live threads would |
| ThreadExact.DetermineIsScan | pkg/email/threading.go:314-342 | a plain email without a resolver hit goes to the live thread a scan finds, else to its Gmail thread, else to a new one |
| ThreadExact.PlaceExact | pkg/email/threading.go:184-188 | filing a thread keeps the index exact if and only if none of its IDs belongs to another thread |
| ThreadExact.RemovalExact | pkg/email/threading.go:718-730 | dropping keys keeps the index exact if and only if it drops whole threads |
| ThreadSplits.EvictionCanSplitIff | pkg/email/threading.go:698-730 | an eviction of a given number of keys can split a thread if and only if some thread has two keys and the number falls inside the keys of its age, ties included |
| ThreadSplits.EvictionCanBreakIff | pkg/email/threading.go:698-730 | so from an exact index it can leave an inexact one in exactly these states |
| ThreadPairs.EvenSplits | pkg/email/threading.go:718-730 | when all threads but the oldest have two keys and it has one, every legal choice of an even number of keys splits a thread |
| ThreadPairs.AnyCount | pkg/email/threading.go:718-730 | there is a legal choice of any number of keys up to all |
| ThreadPairs.EvictionMustBreak | pkg/email/threading.go:191-193 | every run of one compose and mails that start threads keeps the index exact up to the maximum, and the eviction of the mail that exceeds it breaks it, whichever legal keys it takes |
| ThreadExact.CleanupExact | pkg/email/threading.go:660-683 | expiry drops whole threads, so it keeps the index exact |
| ThreadExact.StepExact | pkg/email/processor.go:268-270 | each event keeps the index exact if the cache has room and no filed ID belongs to another live thread |
| ThreadExact.RunExact | pkg/email/threading.go:287-343 | so does every run of such events, with plain lookups, expiries, sends and restores in between |
| ThreadDisputes.PlainEmailIsUndisputed | pkg/email/threading.go:314-342 | for a plain email the side condition is exactly that its own ID and key are not claimed by another thread |
| ThreadDisputes.PlainEmailById | pkg/email/threading.go:314-342 | with IDs that hold no bar, a plain email is undisputed if and only if its ID is unknown or already its thread's |
| ThreadDisputes.ComposeById | pkg/email/threading.go:176-194 | with such IDs a compose is undisputed if and only if its ID is unknown |
| ThreadDisputes.OpenById | pkg/connector/client_send.go:308-325 | with such IDs opening a room is undisputed if and only if none of the IDs it would restore is known |
| ThreadDisputes.SendById | pkg/connector/client_send.go:198-210 | with such IDs a send into an open room is undisputed if and only if its key is new or already its thread's |
| ThreadDisputes.ForwardExact | pkg/email/threading.go:288-291 | a forward keeps the index exact if and only if all its IDs and References are unknown |
| ThreadDisputes.ForwardCapturesReplies | pkg/email/threading.go:516-523 | a forward that refers to a live thread takes the next reply to the message it refers to |
| ThreadConversations.StepGrows | pkg/email/threading.go:439-450 | no event takes an ID from a thread object or changes its thread ID |
| ThreadOwnership.StepOwns | pkg/email/threading.go:287-343 | whatever an event does to other threads, the IDs of a conversation keep leading to its thread, unless the event drops a key of it or files one of the IDs elsewhere |
| ThreadConversations.ConversationClosed | pkg/email/threading.go:314-329 | while no event drops a key of a thread or claims a message of the conversation for another thread, every causal chain of replies, inbound ones and the bridge's own sends in any order, stays in its room; its IDs still belong to the thread at the end; what happens to other threads does not matter |
| ThreadConversations.DirectReplyAnswers | pkg/email/threading.go:314-329 | a plain email whose In-Reply-To is a message of the conversation counts as an answer, whatever its References say |
| ThreadConversations.SendRecords | pkg/connector/client_send.go:200-235 | after a send the key is an ID of the cached thread, and the saved metadata restores exactly the thread's IDs |
| ThreadLookups.SavedIsRestored | pkg/connector/client_send.go:296-326 | saving and restoring a thread loses nothing but what it was a reply to and when it was used |
| ThreadConversations.SendOwnsIds | pkg/connector/client_send.go:198-210 | after a send the IDs of the thread that no other thread carries lead to it |
| ThreadConversations.SendJoins | pkg/connector/client_send.go:198-210 | a message the bridge sends into a thread joins the thread's conversation |
| ThreadConversations.SendThenReplies | pkg/connector/client_send.go:198-210 | after a send, replies to the sent message, to any message that is the thread's own, and to everything said from then on in either direction come back to the room |
| ThreadConversations.RestoreThenReplies | pkg/connector/client_send.go:308-325 | opening a room whose thread is gone restores it, and replies to any saved ID that no other thread has claimed, and to everything said from then on, come back |
| ThreadMemory.SendExpireRestoreThenReplies | pkg/connector/client_send.go:212-235 | so do replies to any set of messages that a send saved, after the thread expired and was restored, with any run in between, sends in the room included, that gives the room to no thread without them |
| ThreadMemory.ConversationOutlivesThread | pkg/connector/client_send.go:200-326 | all that was said in a room before a send, in either direction, and all that is said after its thread was dropped and restored, is one conversation in one room |
| ThreadMemory.RunRemembers | pkg/connector/client_send.go:212-235 | the saved metadata, and whatever the room leads to, keep a set of messages through every run that gives the room to no thread without them |
| ClientSend.EmailClient.ResolveThreadForPortal | pkg/connector/client_send.go:296-326 | the cached thread, else one rebuilt from matching metadata and cached, else nothing |
| ClientSend.EmailClient.Send | pkg/connector/client_send.go:62-235 | the cache and the metadata after a send, as one event of a run; without a thread, the cache after the lookup alone and unchanged metadata |
| ClientSend.EmailClient.RecordSend | pkg/connector/client_send.go:200-235 | the tail moves to the sent message, the thread is cached again and saved |
| ClientSend.ReplyChainLeadsBack | pkg/connector/client_send.go:331-343 | without an explicit parent a reply answers the thread's tail if and only if there is one, after all References of the thread, and names only IDs of the thread; after a send it continues from the sent message |
| ClientSend.ParentChainLeadsBack | pkg/connector/client_send.go:331-337 | a reply to an explicit parent answers it and names no other foreign ID; it leads back to the thread if and only if the parent is one of its IDs or it has references |
| ClientSend.FirstReplyAnswers | pkg/connector/client_send.go:331-343 | the first reply to an email that started its thread has that email as its parent, after the email's References |
| ClientSend.FirstReplyAfterResolving | pkg/connector/client_send.go:331-343 | the first reply into a thread that only the resolver knew has no parent |
| ClientSend.NextReplyNames | pkg/connector/client_send.go:331-343 | after an answer the next reply has it among its References |
| ClientSend.ReplyComesHome | pkg/connector/client_send.go:331-343 | an email with the headers of a reply is determined to its thread, in every state where the thread owns its IDs, if and only if the headers name anything |
| ClientSend.FirstSendStarts | pkg/connector/client_send.go:331-343 | the first message of a composed room has no parent and no References |
| Breaker.ClosedIffFewFailures | pkg/reliability/circuit_breaker.go:154-171 | under every interleaving the failure count is the run of failures since the last success or reset, and the breaker is closed exactly while it is below the maximum |
| Breaker.ProbesAreBounded | pkg/reliability/circuit_breaker.go:104-151 | under every interleaving an episode admits at most the configured number of probes plus one per call that held the counter when it opened and had finished its function |
| Episodes.EpisodeAdmitsExactly | pkg/reliability/circuit_breaker.go:82-151 | from its opening state an episode can admit n probes if and only if n is at most the configured number plus the holders from before that no longer run |
| Episodes.OneProbeIff | pkg/reliability/circuit_breaker.go:140-147 | with the limit of one, an episode keeps to one probe if and only if every call that holds the counter when it opens still runs its function |
| Episodes.PromotionOpens | pkg/reliability/circuit_breaker.go:118-133 | every episode opens in such a state |
| Breaker.ResultEndsEpisode | pkg/reliability/circuit_breaker.go:154-176 | any recorded result ends a half-open episode, also one of a call admitted earlier |
| Breaker.ProbeExcludesOthers | pkg/reliability/circuit_breaker.go:140-147 | while the probe of an episode without such calls runs, every further call is turned away and leaves no trace |
| Breaker.RunKeeps | pkg/reliability/circuit_breaker.go:82-214 | the invariant about episodes that every step of every call keeps |
| Breaker.TwoProbesAtOnce | pkg/reliability/circuit_breaker.go:88-95 | a reachable state in which a late decrement lets a second probe run beside the first |
| CircuitBreaking.CircuitBreaker.Execute | pkg/reliability/circuit_breaker.go:82-101 | state and answer of one undisturbed call |
| CircuitBreaking.CircuitBreaker.CheckStateAndIncrement | pkg/reliability/circuit_breaker.go:104-151 | admission, transition to half-open and counting |
| CircuitBreaking.CircuitBreaker.RecordResult | pkg/reliability/circuit_breaker.go:154-190 | state after a result |
| CircuitBreaking.CircuitBreaker.ResetBreaker | pkg/reliability/circuit_breaker.go:207-214 | closed, with no failures and no half-open calls counted; the time of the last failure stays |
| CircuitBreaking.CircuitBreaker.New | pkg/reliability/circuit_breaker.go:57-72 | refuses parameters that are not positive, else starts closed with one half-open request |
| CircuitBreaking.CallIsARun | pkg/reliability/circuit_breaker.go:82-101 | an undisturbed call is a run of the interleaved machine with the same state and answer |
| CircuitBreaking.OneCallerIsServed | pkg/reliability/circuit_breaker.go:111-148 | calls that neither overlap nor nest run their function if and only if the failures in a row are few or older than the timeout |
| CircuitBreaking.NeverRejectedAsOpen | pkg/reliability/circuit_breaker.go:111-137 | once the timeout has elapsed, no call that starts then is rejected as open before another result is recorded |
| CircuitBreaking.RetryIsNotRejectedAsOpen | pkg/imap/client.go:1497-1505 | the attempt that follows a rejection as open is not rejected as open again, whatever other callers do short of recording a result |
| CircuitBreaking.RetryRuns | pkg/imap/client.go:1497-1505 | with one caller that attempt runs its function |
| CircuitBreaking.NestedRecoveryNeedsClosed | pkg/imap/client.go:2171-2199 | a recovery that reconnects through its own breaker has its first attempt let through, and can succeed, if and only if the breaker was closed on entry |
| CircuitBreaking.NestedRecoveryReopens | pkg/imap/client.go:2171-2199 | a recovery from an open breaker has all its reconnect attempts turned away, therefore fails, and opens the breaker again |
| Retry.RetryWithBackoff | pkg/reliability/retry.go:55-123 | at most max(1, MaxAttempts) calls, in order, each but the last failing with an error worth a retry, each wait between the backoff and the backoff with jitter; it ends in success, error or cancellation exactly as the first decisive answer says |
| Retry.NoSuccessWithoutOne | pkg/reliability/retry.go:66-123 | without a call that succeeds there is no success, whatever the categories, the waits and the context |
| Retry.BackoffIsCapped | pkg/reliability/retry.go:126-149 | the delay before jitter is the smaller of InitialDelay times the power and MaxDelay |
| Retry.BackoffGrows | pkg/reliability/retry.go:126-149 | delays do not shrink from one attempt to the next |
| Retry.JitterBounds | pkg/reliability/retry.go:151-169 | jitter adds at most a quarter and never passes MaxDelay |
| Retry.GeometricSum | pkg/reliability/retry.go:126-149 | the closed form of the sum of all uncapped delays |
| Retry.WaitingIsBounded | pkg/reliability/retry.go:101-119 | the whole waiting of a call without breaker errors is bounded by five quarters of the backoffs and by MaxDelay per wait |
| Retry.SumBackoffBound | pkg/reliability/retry.go:126-149 | the backoffs add up to at most the geometric sum |
| Retry.BreakerErrorsWait | pkg/reliability/retry.go:104-111 | after a breaker error the wait exceeds the breaker's timeout |
| Retry.WaitsAreInBounds | pkg/reliability/retry.go:101-116 | after an ordinary error the wait lies between the backoff and five quarters of it, both under MaxDelay; after a breaker error it is that or two and a half minutes |
| Retry.WaitingIsLong | pkg/reliability/retry.go:101-116 | the waits add up to at least the backoffs, but for fractions of a nanosecond, and to InitialDelay each |
| Retry.JitterIsExact | pkg/reliability/retry.go:151-162 | the jitter is the random part of a quarter of the backoff, under the same cap |
| Retry.RepairedDefaults | pkg/reliability/retry.go:56-72 | parameters that are not sound are replaced by the defaults, sound ones stay |
| Retry.FirstOtherDecides | pkg/reliability/retry.go:74-119 | errors that can pass are overcome by the first call that ends otherwise, if it comes in time; an error that cannot pass ends the retries |
| Retry.AllTransientFails | pkg/reliability/retry.go:74-119 | errors that never pass use up all attempts, and the last one is returned |
| Utf8.CutIsValidIffBoundary | pkg/email/processor.go:1626-1630 | on valid text, validating a prefix and looking at the next byte's class are the same test, and the rest is valid too |
| Utf8.TruncateUTF8PreserveWords | pkg/email/processor.go:1622-1640 | for any bytes, the prefix up to the last cut within the limit that is valid, else up to the limit, and then at a near space |
| Utf8.TruncatedAt | pkg/email/processor.go:1622-1640 | on valid text the cut is where the byte classes say; on text that starts inside a rune it is the limit |
| Utf8.ValidCutIsLast | pkg/logging/sanitize.go:101-118 | the loop that validates prefixes stops where the loop over byte classes does |
| Utf8.TruncationIsClean | pkg/email/processor.go:1622-1640 | on valid text the cut is valid if and only if the limit holds the first rune, always for a limit of 4; at most 3 + 511 bytes are given up |
| Utf8.BoundaryIsNear | pkg/email/processor.go:1626-1630 | a boundary is never more than three bytes away |
| Utf8.RunesAreEncodings | pkg/email/processor.go:1626-1630 | a string starts with a rune if and only if it starts with the encoding of a Unicode scalar value |
| Utf8.WordCut | pkg/email/processor.go:1634-1638 | the cut goes back to the last space within 511 bytes, if that is not the first byte |
| Sanitize.BoundAndClean | pkg/logging/sanitize.go:90-120 | trimmed, without control characters, within the bound, a prefix of the cleaned text cut at the same boundary as above |
| Sanitize.TrimmedHasNoSpaceAround | pkg/logging/sanitize.go:91 | no Unicode white space is left at either end |
| Sanitize.ScrubbedIffUnclean | pkg/logging/sanitize.go:92-100 | exactly the valid texts without control characters are left alone |
| Sanitize.ScrubbedIsClean | pkg/logging/sanitize.go:92-100 | cleaning gives valid UTF-8 without control characters for any bytes |
| Sanitize.ControlsAreDropped | pkg/logging/sanitize.go:92-100 | clean text survives up to and after a control character, which is dropped |
| Sanitize.StrayBytesAreReplaced | pkg/logging/sanitize.go:92-100 | a byte that is no part of a rune is replaced, and the text around it survives |
| Sanitize.TrimmedIsTheMiddle | pkg/logging/sanitize.go:91 | trimming takes off white space at both ends and nothing else |
| Sanitize.SpaceIffWhite | pkg/logging/sanitize.go:91 | white space is that of Unicode |
| Chunking.SplitBody | pkg/email/processor.go:1394-1435 | the chunks and the rest as the chunk function says; the body is the chunks with whitespace after each, and the rest; at most 50 chunks within size; the notice reports exactly the length of the rest |
| Chunking.DeliverBody | pkg/email/processor.go:1391-1436 | one event for a small body, else chunks, with nothing lost in either case |
| Chunking.CutChunk | pkg/email/processor.go:1401-1419 | the truncated piece shrunk until it fits, within 16 KiB; never empty, and of valid text either all of it or 7200 bytes, as JSON is bounded |
| Chunking.ChunkIsValidIff | pkg/email/processor.go:1401-1419 | a chunk of valid text is valid if and only if its piece fits as it is or is shrunk to a rune boundary, and then the rest is valid |
| Chunking.ChunksAreValidIff | pkg/email/processor.go:1399-1428 | all chunks of a valid body are valid if and only if all its cuts are clean in that sense |
| Chunking.ShrunkIsLong | pkg/email/processor.go:1411-1419 | with escaping bounded as in JSON, shrinking ends with a text that fits, unchanged or of at least 7200 bytes |
| Chunking.ShrunkLosesLittle | pkg/email/processor.go:1410-1419 | a piece is shrunk only if it does not fit, and then to a length that a prefix longer by a tenth, or by 256 bytes, does not fit either |
| EventSize.EscapingIsBounded | pkg/email/processor.go:1597-1617 | the size that json.Marshal gives an event is bounded like that |
| EventSize.LightTextIsCutCleanly | pkg/email/processor.go:1399-1428 | bodies without control characters, angle brackets and ampersands are always cut between runes |
| EventSize.ShrinkingCanSplitARune | pkg/email/processor.go:1411-1419 | there is a valid body whose first chunk is not valid |
| Chunking.Shrink | pkg/email/processor.go:1411-1419 | the first length of the shrinking sequence that fits |
| Chunking.NothingVisibleIsLost | pkg/email/processor.go:1399-1435 | the visible bytes of the body are those of the chunks in order, then those reported as omitted |
| QuoteText.StripQuotedReply | pkg/email/quote.go:31-118 | cuts before the first line at which a marker fires, else before a quoted tail |
| QuoteText.IsWrappedAttribution | pkg/email/quote.go:47-62 | an attribution broken over two or three lines |
| QuoteText.TailCutFrom | pkg/email/quote.go:85-112 | the backward walk finds the start of the run of blank and quoted lines |
| QuoteTails.TailIsCut | pkg/email/quote.go:85-117 | where no other marker fires, the text is cut after the sender's last own line if anything below it is quoted, and is otherwise only trimmed |
| QuoteTails.OnlyQuotesAreLost | pkg/email/quote.go:85-117 | so every line that is dropped is blank or quoted |
| QuoteTails.BareQuoteIsCut | pkg/email/quote.go:85-117 | stripping a reply above a bare quote gives the right-trimmed reply if and only if no marker fires inside it and it ends in the sender's own text |
| QuoteTails.QuotedIff | pkg/email/quote.go:96-106 | a line is quoted if and only if a quote mark is the first thing on it |
| QuoteTails.InnocentTextIsKept | pkg/email/quote.go:31-118 | text without colons, and without a line that starts like a marker, is only trimmed |
| QuoteTails.CutsAtMarker | pkg/email/quote.go:36-83 | below such text the first line a marker fires on is the cut |
| QuoteTails.IntroductionsCut | pkg/email/quote.go:135-143 | the line that introduces a quote cuts, in each of the seven languages |
| QuoteTails.DividersCut | pkg/email/quote.go:64-70 | Outlook's two dividers cut |
| QuoteTails.HeadersCut | pkg/email/quote.go:72-82 | a header block cuts, whichever of the four fields follows the sender |
| QuoteReplies.FormatGmailQuoteText | pkg/email/quote.go:267-293 | the attribution, then the quoted lines |
| QuoteReplies.QuotingIsInvertible | pkg/email/quote.go:273-292 | every parent text can be read off its quote, but for carriage returns at line ends |
| QuoteReplies.QuotingAddsNoSpace | pkg/email/quote.go:277-290 | quoting takes nothing off a line but carriage returns and adds no space at its end |
| QuoteReplies.AttributionShows | pkg/email/quote.go:322-343 | the attribution starts with the date and ends with the sender |
| QuoteReplies.SenderShows | pkg/email/quote.go:330-341 | the attribution shows name and address, the address, or the header as it is, and never nothing |
| QuoteStripping.ParentIsInQuote | pkg/email/quote.go:267-295 | the parent can be read off the text that is sent |
| QuoteReplies.QuotingDeepens | pkg/email/quote.go:277-290 | quoting n times keeps the lines and raises the depth of each by exactly n |
| QuoteStripping.StrippedIsTrimmedPrefix | pkg/email/quote.go:114-117 | stripping returns a right-trimmed prefix of its input |
| QuoteStripping.NoMarkerIsLeft | pkg/email/quote.go:38-83 | on the result the attribution, divider and header markers never fire |
| QuoteStripping.StrippingTwice | pkg/email/quote.go:85-112 | stripping twice differs from stripping once exactly if a quoted tail stood above the first cut |
| QuoteStripping.ReplyComesBack | pkg/connector/client_send.go:506-514 | stripping a reply with its quote gives the right-trimmed reply if and only if no marker fires inside the reply |
| QuoteStripping.SentReplyComesBack | pkg/email/quote.go:322-343 | the same with the attribution line the bridge writes |
| QuoteStripping.OnWroteIsAttribution | pkg/email/quote.go:136 | an attribution line of the bridge within the bound is recognised |
| QuoteStripping.OnReplyIsLost | pkg/email/quote.go:47-62 | a one-line reply that starts with "On" is lost with the quote if it and what stands between "On" and "wrote:" in the attribution have at most 395 characters |
| QuoteHtml.StripQuotedReplyHTML | pkg/email/quote.go:200-227 | cuts at the first marker and trims breaks before it |
| QuoteHtml.NoMarkerIsLeft | pkg/email/quote.go:176-185 | no quote marker is left in any letter case |
| QuoteHtml.StrippingHtmlIsIdempotent | pkg/email/quote.go:200-227 | stripping twice is stripping once |
| QuoteHtml.OnlyBlanksAreLost | pkg/email/quote.go:214-226 | between what is kept and the first marker stands nothing but white space and break tags |
| QuoteHtml.CutEndsVisibly | pkg/email/quote.go:215-226 | no white space and no break tag is left at the cut |
| QuoteHtml.NoStraddle | pkg/email/quote.go:176-185 | no marker straddles a seam at which a tag starts |
| QuoteHtml.HtmlReplyComesBack | pkg/connector/client_send.go:515-527 | stripping the HTML that is sent gives exactly the wrapped body if and only if the body holds no marker |
| QuoteHtml.PlainReplyComesBack | pkg/connector/client_send.go:525-557 | a plain-text reply always comes back, since its escaped body holds no marker |
| QuoteMarkup.EscapedIsShown | pkg/email/quote.go:347-355 | a reader of escaped text sees the text |
| QuoteMarkup.EscapedBodyIsShown | pkg/connector/client_send.go:548-557 | a reader of an escaped plain-text body sees the body, line breaks included |
| QuoteMarkup.EscapedIsPlain | pkg/email/quote.go:347-355 | escaped text opens no tag and closes no attribute |
| QuoteMarkup.QuoteShowsParent | pkg/email/quote.go:309-318 | there is a quote if and only if the parent has HTML, and the parent stands in it as it is, below the attribution |
| QuoteMarkup.QuoteDetermines | pkg/email/quote.go:309-318 | two quotes are equal only if parents and attributions are |
| QuoteMarkup.MarkersCut | pkg/email/quote.go:176-214 | each of the eight markers cuts, in any letter case, and loses only blanks and breaks above it |
| QuoteMarkup.BreakNames | pkg/email/quote.go:231-253 | a break tag may have a slash, attributes and any letter case |
| QuoteMarkup.OtherNames | pkg/email/quote.go:231-253 | no other tag is a break |
| Subject.NormalizeReplySubject | pkg/email/quote.go:364-382 | one "Re: " before the subject without its reply prefixes |
| Subject.NormalizingIsIdempotent | pkg/email/quote.go:357-363 | "Re: Re:" never appears |
| Subject.StemIsBare | pkg/email/quote.go:366-381 | no reply prefix and no space is left around the subject |
| Subject.ReplyPrefixIsAbsorbed | pkg/email/quote.go:370-371 | a subject and its reply, in any letter case, normalize to the same |
| Subject.SubjectIsKeptIff | pkg/email/quote.go:357-382 | a subject survives as it is if and only if it does not start with a reply prefix |
| Subject.StemIsTheRest | pkg/email/quote.go:366-382 | nothing but reply prefixes and space is taken off its front, and nothing off its end |
| Subject.UpToClosingIsAbsorbed | pkg/email/quote.go:372-377 | after "Re[" everything up to the first "]:" is absorbed, whatever it says |
| QuotedArgs.ParseQuotedArgs | pkg/connector/commands.go:766-797 | the loop over runes computes the scan of the whole line |
| QuotedArgs.ParsingUndoesQuoting | pkg/connector/commands.go:766-797 | parsing a line of quoted arguments returns exactly the arguments, for every list of non-empty valid ones |
| QuotedArgs.LastArgumentLost | pkg/connector/commands.go:790-793 | all arguments come back if and only if the line does not end in a multi-byte rune; else exactly the last is missing |
| QuotedArgs.TypedWordsComeBack | pkg/connector/commands.go:771-796 | words typed without quotes, with a backslash before each space, quote and backslash, come back, but for the same exception |
| QuotedArgs.BackslashTakesRune | pkg/connector/commands.go:773-777 | wherever it stands, a backslash takes the next rune as it is |
| QuotedArgs.PlainIsTyped | pkg/connector/commands.go:780-789 | a word without these characters needs no backslash |
| QuotedArgs.ArgumentsAreValid | pkg/connector/commands.go:767-770 | every argument is non-empty and valid UTF-8, whatever the line |
| ImapSync.MailboxTracker.CheckNewMessages | pkg/imap/client.go:1081-1262 | the new mark, the messages tried and the in-flight set after a sync |
| ImapSync.MailboxTracker.PrimeBaselineAndBackfill | pkg/imap/client.go:992-1070 | the new mark and the messages tried by a prime |
| ImapSync.MailboxTracker.StartUID | pkg/imap/client.go:2090-2104 | a UID is acquired unless it is in flight |
| ImapRuns.NeverForwardedTwice | pkg/imap/client.go:1081-1262 | in every run of primes and syncs the mark never decreases and no message is forwarded twice |
| ImapRuns.SyncTakesAllNew | pkg/imap/client.go:1197-1254 | a sync tries exactly the messages above the mark, each once |
| ImapRuns.EachArrivalIsTriedOnce | pkg/imap/client.go:1218-1262 | between two primes every arrival is tried exactly once, by the first sync that sees it |
| ImapRuns.FirstSyncSkips | pkg/imap/client.go:1104-1143 | a sync tries all messages above the mark if and only if there is a mark or nothing to skip |
| ImapFirstSync.FirstSyncSetsMark | pkg/imap/client.go:1104-1143 | a first sync that gets its answer sets the mark below the next UID and tries nothing; without an answer nothing changes |
| ImapFirstSync.TriedIffSeen | pkg/imap/client.go:1145-1262 | from a mark on, without primes, a message above the mark has been tried if and only if a sync has seen it |
| ImapFirstSync.FirstSyncThenAll | pkg/imap/client.go:1104-1143 | after a first sync of a mailbox that ever held a message, exactly what arrives and is seen by a sync is tried, once; nothing older is |
| ImapFirstSync.EmptyMailboxSkips | pkg/imap/client.go:1130-1138 | in a mailbox that never held a message the mark stays at 0, and the next sync skips what arrived |
| ImapFirstSync.FirstSyncKeepsPromiseIff | pkg/imap/client.go:1104-1143 | a first sync will have new messages fetched from then on if and only if the mailbox ever held one |
| ImapFirstSync.PrimeSetsMark | pkg/imap/client.go:1008-1067 | a prime sets the mark below the next UID or to the highest message it backfilled; a failed status changes nothing |
| ImapFirstSync.BackfillTriesNewest | pkg/imap/client.go:1038-1053 | a backfill tries at most the maximum, and leaves out a new message only for as many newer ones |
| ImapFirstSync.InFlightIsSkipped | pkg/imap/client.go:1240-1255 | what is in process elsewhere is skipped, everything else tried once |
| ImapRuns.PrimeSkips | pkg/imap/client.go:1007-1069 | no message that is present when a prime asks for the status is tried by it or later |
| ImapTasks.FirstSyncIsARun | pkg/imap/client.go:1104-1143 | a first sync that nothing overlaps is a run of the machine with the same mark and the same messages |
| ImapTasks.SyncIsARun | pkg/imap/client.go:1145-1262 | so is any other sync, also beside messages in flight |
| ImapTasks.PrimeIsARun | pkg/imap/client.go:992-1070 | so is a prime, with or without a backfill |
| ImapOverlap.OneSyncPerMessage | pkg/imap/client.go:2090-2115 | however syncs and primes overlap, no two syncs process the same message at once, and exactly the messages in process are marked |
| ImapOverlap.RunKeeps | pkg/imap/client.go:1240-1253 | the invariant behind it, over every interleaving |
| ImapOverlap.OverlapOutsideWindowsIsHarmless | pkg/imap/client.go:1081-1262 | if none begins while another is between looking at the mark and writing it, overlapping syncs and primes never turn the mark back, forward nothing twice, and share no message |
| ImapWindows.BeginIsSafeIff | pkg/imap/client.go:1081-1101 | a sync or prime begins safely if and only if no other task is in that window; else some continuation, with the mailbox's own answers, turns the mark back |
| ImapWindows.TwoSyncsForwardTwice | pkg/imap/client.go:1081-1101 | from the start two syncs and one message are enough to forward it twice |
| ImapWindows.OverlapForwardsTwice | pkg/imap/client.go:1081-1101 | from any state with two syncs that have read the mark, one new message, which the mailbox really answers with, can be forwarded twice |
| ImapWindows.OverlapTurnsMarkBack | pkg/imap/client.go:1218-1236 | whenever a sync or prime has just begun while another task is between looking at the mark and writing it, the mark can go back |
| ImapWindows.BackfillDoublesSync | pkg/imap/client.go:1041-1053 | a backfill and a sync can process the same message at once |
| GmailPoller.GmailHistoryPoller.PollOnce | pkg/email/inbound_gmail_api.go:194-321 | cursor, success and batch of one tick, for every kind of reply |
| GmailPoller.GmailHistoryPoller.CollectPages | pkg/email/inbound_gmail_api.go:271-302 | the batch of all records on all pages |
| GmailPoller.GmailHistoryPoller.Tick | pkg/email/inbound_gmail_api.go:113-130 | cursor and stored cursor move together, and only when the tick and the save succeed |
| GmailPoller.GmailHistoryPoller.BootstrapCursor | pkg/email/inbound_gmail_api.go:168-189 | a stored cursor is kept, else the current one is stored first |
| GmailPoller.TickForwardsExactly | pkg/email/inbound_gmail_api.go:253-302 | the batch is exactly the non-draft additions and the non-draft labellings with a monitored label |
| GmailPoller.LastAdditionNames | pkg/email/inbound_gmail_api.go:274-284 | the mailbox of a message is named by its last addition |
| GmailPoller.FirstLabellingNames | pkg/email/inbound_gmail_api.go:285-300 | without an addition it is named by its first labelling |
| GmailPoller.AnnouncesIff | pkg/email/inbound_gmail_api.go:274-300 | which entries count: no draft label, and for a labelling a monitored label, in any letter case |
| GmailPoller.HoldsIff | pkg/email/inbound_gmail_api.go:273-286 | a record holds its entries that have a message |
| GmailPoller.ChangesInOrder | pkg/email/inbound_gmail_api.go:271-302 | the entries count in the order of pages and records |
| GmailPoller.SystemLabelNames | pkg/email/inbound_gmail_api.go:471-479 | a message is named by the first of its labels that says sent or inbox |
| GmailPoller.OtherLabelNames | pkg/email/inbound_gmail_api.go:480-491 | else by its first monitored label, else by the first that is monitored |
| GmailPoller.NewCursorIsHighest | pkg/email/inbound_gmail_api.go:225-251 | the new cursor is the highest id of the pages, the first page counting even if it is lower than the old cursor |
| GmailPoller.ExpiryJumps | pkg/email/inbound_gmail_api.go:210-222 | with an expired history the cursor jumps to the end, nothing is taken, and none of the records in between is ever read |
| GmailPoller.StoredTicksPartitionHistory | pkg/email/inbound_gmail_api.go:113-130 | in every run what the stored ticks took is the history from the start to the cursor, without overlap, and without a gap but for the stretches that had expired |
| GmailPoller.FailedTickIsRepeated | pkg/email/inbound_gmail_api.go:115-130 | every record a failed or unsaved tick was due to read is read again: a later stored tick takes it or the next complete listing holds it, whatever happens in between, unless the history expires |
| GmailPoller.PassedIsNeverRead | pkg/email/inbound_gmail_api.go:225-251 | what the cursor has passed is never read again, so a record missing below it is lost |

## Left out

- ThreadManagement.ThreadManager.AddToExistingThread: participants and what a thread keeps of the last inbound email for the next reply are left out; they do not take part in threading.
- ThreadManagement.ThreadManager.CreateNewThread: participants and bodies are left out likewise; the fallback ID made of subject and date is a non-empty parameter.
- ThreadManagement.ThreadManager.DetermineThread: the forward test on subject and content is a flag of the email; the thread resolver's database is a map of its answers.
- ClientSend.EmailClient.Send: recipients, body, attachments and the sending itself are left out.
- Isolation of the thread cache: each inbound email, compose, room opening and send is one step; data races on thread objects outside the lock are not modelled, nor are panics inside a called function.
- Deriving a subject for the first message of a room, and the bot command that sets one: neither touches an ID.
- Compose caches its thread when it resolves the address and again when the room is made; the model takes both as one event.
- ThreadMemory.SendExpireRestoreThenReplies: assumes that no other thread is filed under the room's two keys without the messages; the bare ID is a key that all receivers share.
- Go's 32-bit half-open counter and the breaker's callback are left out; the callback runs outside the lock and does not touch the breaker.
- Retry.BackoffIsCapped: real arithmetic in place of floating point; the NaN and infinity guards have no counterpart, and the comparison of exponents is written as one of powers.
- Retry's error categories are inputs; the text patterns that assign them are not modelled.
- Chunking.DeliverBody: whether the whole event fits is an input, because building it, its HTML part and its attachments is left out.
- Regular expressions are written as predicates on prefix, length and suffix; net/mail's parsing of the sender is an input; the date of an attribution arrives formatted.
- Lowercasing is ASCII lowercasing where the program indexes the original string with offsets from the lowered one; Gmail labels are compared the same way.
- The HTML sanitizing of incoming mail, MIME building and parsing, and address parsing: library semantics.
- parseQuotedArgs' callers, the bot commands and login prompts: user interface.
- One IMAP mailbox is modelled; the program keeps the same two fields once more for the Sent folder. Connections, timeouts and IDLE are replies that fail.
- ImapRuns.NeverForwardedTwice: takes primes and syncs one after the other, with a constant UIDVALIDITY; any overlap of them is the subject of ImapOverlap and ImapWindows, for a constant UIDVALIDITY too.
- ImapWindows.BeginIsSafeIff: the harmful continuation needs a mailbox that has room for two more UIDs below the 32-bit limit.
- GmailPoller.StoredTicksPartitionHistory: assumes listings that are snapshots; the label filter of the Gmail service belongs to the server's log, and fetching and handing over the messages of a batch may fail one by one, which the program only logs.
- The Gmail backlog scan, OAuth, SMTP, the database, encryption, configuration, room management and state reporting: I/O, libraries and wiring, or easy claims.
