# Cookd API, modelled and proved

Cookd is a small service behind a cooking assistant: people talk to a language model in
conversations, attach photos, keep a pantry and a journal of dishes. This project models the parts
of it whose state has to stay right over whole runs, and proves that it does, or exactly when it does.

Properties are stated for every input, every run or every reachable state; where the code falls short of
one, there is a concrete input or run that shows it and the exact condition under which it holds.

## What is modelled

**Sending a message** (`Protocol.dfy`, `Invariant.dfy`, `Runs.dfy`). The service is a transition
system: one database, any number of sends in flight, any owner doing anything in between. A send
checks that the conversation is there, reads its message rows, then their images, then the pantry,
then the journal, streams deltas, stores the exchange in one transaction and says so; it can fail or
be cancelled on the way. The invariant ties every conversation to the commits made to it, every
stream to what was stored, and every snapshot to what the conversation has become since.
`Sends.dfy` is the handler itself, from the lines of the model's response to the store as an object, proved
to be those phases in a row.

**The store** (`Schema.dfy`, `Joins.dfy`, `Conversations.dfy`, `Pantry.dfy`, `Statements.dfy`, `Stores.dfy`). The
five tables with their keys and cascades as values, what every statement does to them, and a class with
the same methods as the original's. The pantry is shown to be a map per owner, a conversation a list of
turns.

**Owners** (`Isolation.dfy`, `Renaming.dfy`). Erasing everybody else from any run leaves a run, at the end
of which the database is exactly this owner's share; and since generated identifiers are only ever compared,
it is, up to their names, the run the database would have made for this owner alone.

**The model input** (`Prompt.dfy`, `Composed.dfy`, `Inputs.dfy`, `TornReads.dfy`, `Kitchens.dfy`). The jumping
window, the photo horizon and the memory block, and what every reachable database state guarantees
about the input: that it takes turns and keeps a cacheable prefix, and exactly when it is complete, the two
queries of one read not being one snapshot.

**The rate limiter** (`RateLimit.dfy`, `Limiters.dfy`). Token buckets that are dropped when idle,
against an ever-growing map from which nothing is dropped. Time is whole nanoseconds, a bucket's
content is credit in nanoseconds.

**Google's signing keys** (`KeyCache.dfy`, `Googles.dfy`). A cache with a time to live and a cooldown
against a key set that changes over time.

**Text** (`Text.dfy`, `Names.dfy`, `Memories.dfy`, `Sse.dfy`, `UserMessages.dfy`). Pasted ingredient lists,
the memory block and a reader of it, Server-Sent Events (section 9.2.6 of the WHATWG HTML Living
Standard) and the line scanner of the model stream, message validation.

Classes and methods are used where the original updates state in place; each is proved equal to a
function on values, and the properties are proved of those functions.

## Where the code and its comments disagree

The model follows the code.

- `internal/api/ratelimit.go:84-85` says dropping an idle bucket is harmless. It is for calls that
  enter in clock order (`RateLimit.SweepingInvisible`). The clock is read before the lock is taken
  (lines 67-70), so calls can enter out of order, and then a sweep can let through a call that would
  have been refused, because the bucket had not refilled (`RateLimit.OutOfOrderSweepShows`) or because a
  late arrival is stamped before it had (`RateLimit.LateArrivalShows`). `RateLimit.SweepHarmlessIff` says
  exactly when one sweep is harmless to all that may still come, `RateLimit.SweepingInvisibleIff` exactly
  when all sweeps of a run are.
- `internal/api/ratelimit.go:45` rounds the Retry-After hint to the nearest second, so waiting that long is
  not always enough (`RateLimit.RetryAfterSufficesIff`).
- `internal/auth/google.go:23-24` says the cooldown stops a stream of unknown key ids from turning into a
  stream of fetches. It does not hold back fetches that fail (`KeyCache.NextAttemptSpacedIff`,
  `KeyCache.OutageUnspaced`).
- `internal/store/messages.go:17-57` reads messages and images in two queries without a transaction. A
  commit or a delete between them makes a history that never was: photos on the wrong message, photos
  lost, or an index out of range (`TornReads`). `Composed.ReadFaithfulIff` says exactly when the history
  is right, `Inputs` exactly when the input still shows at most 8 photos, when no user message in it is
  empty, and when the index is out of range.
- `internal/api/send.go:36` has done carry the conversation's title. Line 93 drops the error of reading it, so
  when that read fails done carries none, though the conversation has one (`TornReads.EmptyTitleSent`);
  `Runs.DoneNamesTheAnswer` says exactly when the title is right.
- `internal/chat/memory.go:60-65` writes "nothing" for an empty list, which is also what a pantry holding
  only an ingredient called "nothing" looks like (`Memories.PantryReadBackIff`).
- `internal/chat/memory.go:67-72` cleans tag characters out of names that `internal/api/names.go:12-33`
  accepts: "<>" can be pasted and stored, and the block lists it as an empty name
  (`Kitchens.TagsAloneArePlain`).

## Model

| member | source | states |
|---|---|---|
| RateLimit.IdleCoversRefill | internal/api/ratelimit.go:39-49 | for every request count and window, truncating division included, an idle bucket has had time to refill |
| RateLimit.SweepingInvisible | internal/api/ratelimit.go:66-96 | for every run whose clock never steps back, the swept limiter answers exactly as one that never drops a bucket |
| RateLimit.ReplaceableIff | internal/api/ratelimit.go:74-78 | nobody whose calls are stamped `since` or later, in whatever order they enter, can tell a bucket from a fresh one if and only if it is full at `since` |
| RateLimit.SweepHarmlessIff | internal/api/ratelimit.go:84-96 | a sweep of any state is unnoticeable to all calls still to come, late arrivals included, if and only if every bucket it drops is full at the earliest stamp to come |
| RateLimit.SweepingInvisibleIff | internal/api/ratelimit.go:66-96 | for every run in any order: all callers, bursting at any call of the run, are answered as by the limiter that drops nothing if and only if whoever returns to a dropped bucket would have found it full |
| RateLimit.HarmlessSweepsInvisible | internal/api/ratelimit.go:66-96 | for every run in any order, sweeps that drop only what is full at every stamp still to come of its key never change an answer |
| RateLimit.OutOfOrderSweepShows | internal/api/ratelimit.go:67-72 | three calls entering out of clock order on which the sweep changes an answer |
| RateLimit.LateArrivalShows | internal/api/ratelimit.go:67-72 | three calls on which the sweep drops a bucket that is full, and a late arrival is still answered differently |
| RateLimit.BurstServedIff | internal/api/ratelimit.go:81 | a bucket serves n calls at one instant exactly when it holds n tokens |
| RateLimit.RateBound | internal/api/ratelimit.go:39-49 | in any interval of any run a key is admitted at most burst plus one call per refill time, across sweeps |
| RateLimit.AdmittedIff | internal/api/ratelimit.go:39-82 | in any run in clock order, across sweeps, a call is admitted if and only if for every earlier admitted call of its key those from that one on and this one fit `requests` calls plus the time since at one per window / requests |
| RateLimit.FullBurst | internal/api/ratelimit.go:39-49 | n calls of a new key at one instant are all admitted if and only if n <= requests |
| RateLimit.DegenerateAnswers | internal/api/ratelimit.go:39-49 | a window too short for its requests never refuses, and a negative number of requests always does unless the quotient is not positive |
| RateLimit.CreditAfter | internal/api/ratelimit.go:81 | an admitted call costs one token and time counts from its own stamp, so a clock that stepped back credits the step again |
| RateLimit.RefusedThenSilentIsAdmitted | internal/api/ratelimit.go:66-82 | a refused key that stays silent while one token returns is admitted next |
| RateLimit.RetryAfterSufficesIff | internal/api/ratelimit.go:45 | waiting the advertised seconds suffices if and only if the refill time is under a second or is not rounded down |
| RateLimit.RetryAfterNearest | internal/api/ratelimit.go:45 | the hint is within half a second of the refill time, halves rounded up, and never below one second |
| RateLimit.BucketsBounded | internal/api/ratelimit.go:66-96 | after every run in clock order the buckets kept are among the keys of the last two windows |
| RateLimit.LastSweepForward | internal/api/ratelimit.go:86-96 | from any call of a run to any later one, in clock order or not, the last sweep never goes back |
| RateLimit.KeptIff | internal/api/ratelimit.go:66-96 | after any call exactly the caller's bucket, and the others seen within a window or not yet due for a sweep, are there, as they were |
| Limiters.Visitor.AllowOne | internal/api/ratelimit.go:81 | one bucket object does to its tokens what the specification does |
| Limiters.Limiter.Allow | internal/api/ratelimit.go:66-82 | the object answers and changes as the specified limiter, leaving other buckets alone |
| Limiters.Limiter.Sweep | internal/api/ratelimit.go:86-96 | the deleting loop leaves exactly the specified buckets |
| KeyCache.KeysOfIff | internal/auth/google_keys.go:62-73 | a key is held if and only if a usable row has its id, with the numbers of the last such row |
| KeyCache.SetInHand | internal/auth/google_keys.go:16-34 | the set in hand is that of the latest successful fetch; failed fetches change nothing |
| KeyCache.AnswersJustified | internal/auth/google_keys.go:16-34 | keys come from a set younger than six hours or fetched in the call, "unknown" only from one younger than a minute or fetched in the call, and "unreachable" only when the fetch failed and no set in hand would have done |
| KeyCache.AttemptsIff | internal/auth/google_keys.go:16-29 | a call goes out to fetch if and only if the latest set fetched neither is under six hours old and has the key nor is under a minute old |
| KeyCache.HeldIsAnswered | internal/auth/google_keys.go:21-23 | a key in the latest set, under six hours old, is answered from it without a fetch, however Google fares |
| KeyCache.AnswerIs | internal/auth/google_keys.go:16-34 | unreachable if and only if a fetch was tried and failed; otherwise the key in the set then in hand, or unknown |
| KeyCache.FetchesSpaced | internal/auth/google_keys.go:25-29 | after a successful fetch no call goes out to fetch, successfully or not, for a cooldown |
| KeyCache.FetchesBounded | internal/auth/google_keys.go:25-29 | at most T / cooldown + 1 successful fetches in any span T |
| KeyCache.NextAttemptSpacedIff | internal/auth/google.go:23-25 | for every run that ends in a fetch, the cooldown holds back all that may follow if and only if the fetch succeeded |
| KeyCache.OutageUnspaced | internal/auth/google_keys.go:25-29 | in an outage every one of n calls fetches |
| Googles.Google.Key | internal/auth/google_keys.go:16-34 | the object answers and changes as the specified cache |
| Googles.Google.Refresh | internal/auth/google_keys.go:36-76 | a fetch replaces the set by the usable keys, a failure leaves it |
| Names.ParseIngredientNames | internal/api/names.go:12-33 | the loop with its early errors computes the specified parse |
| Names.ParsedNames | internal/api/names.go:12-33 | a successful parse gives 1 to 50 distinct normal names of at most 60 characters, exactly the names written |
| Names.FirstsInOrder | internal/api/names.go:15-25 | names come out in the order they first occur |
| Names.RefusedIff | internal/api/names.go:20-31 | each of the three refusals happens exactly when it should |
| Names.PartsCut | internal/api/names.go:15 | a comma, a semicolon or a line break anywhere cuts the list in two, and no other character does |
| Names.NameIsNormal | internal/api/names.go:16 | every name is lower case, single spaced, unpadded and free of separators |
| Names.ParseRoundTrip | internal/api/names.go:12-33 | the parsed names joined by commas parse to themselves |
| Names.AsciiRoundTrip | internal/api/names.go:12-33 | and so for ASCII lower-casing with nothing assumed |
| Memories.Block | internal/chat/memory.go:24-58 | the loops over pantry and journal write the specified block |
| Memories.BlockJoined | internal/chat/memory.go:24-58 | the block is its lines joined by line breaks, nothing trimmed off but the last break |
| Memories.BlockLaidOut | internal/chat/memory.go:24-72 | whatever the cook wrote, the block splits back into its own lines, tags occur once each in place and n entries take n + 3 lines |
| Memories.PantryReadBackIff | internal/chat/memory.go:24-72 | for any pantry, a reader of the block recovers the cleaned name of every ingredient in stock and of every one that is out, by position, empty names included, if and only if no listed name has a comma and the only thing in stock is not called "nothing" |
| Memories.StockedHasIff | internal/chat/memory.go:25-32 | a name is among those in stock (or out) if and only if some such ingredient cleans to it |
| Memories.StockedCount | internal/chat/memory.go:25-32 | every ingredient is in exactly one of the two lists |
| Memories.CleanDrops | internal/chat/memory.go:67-72 | tag characters leave no trace, wherever they stand |
| Memories.CleanSpaces | internal/chat/memory.go:67-72 | white space of any kind and length becomes one blank between words and none around |
| Memories.CleanKeeps | internal/chat/memory.go:67-72 | text that needs no cleaning stays as it is |
| Memories.JournalInBlock | internal/chat/memory.go:43-56 | below the pantry's lines the heading says what day it is, then comes a line for each entry, in order |
| Memories.EntryReadBackIff | internal/chat/memory.go:45-54 | an entry's line tells its date, and its dish, taste, minutes and note if and only if the cleaned dish holds no colon |
| Sse.Stream.Send | internal/api/sse.go:36-45 | the bytes on the wire stay the frames sent so far, one after the other, now with this one |
| Sse.Stream.ReadsBackIff | internal/api/sse.go:36-45 | a client with the same line loop reads off the response object exactly the payloads sent if and only if each is recoverable |
| Sse.Stream.ClientSees | internal/api/sse.go:36-45 | a client that reads events as the standard says sees exactly the events sent, by name and payload |
| Sse.ReadReply | internal/chat/openai.go:52-97 | the scan loop yields the deltas, the text they make, the stop reason and the refusal of the events before the end marker |
| Sse.EventsByLine | internal/chat/openai.go:54-77 | the events are those decoded from the data lines before the end marker, each once and in order |
| Sse.DeltasByLine | internal/chat/openai.go:79-81 | the deltas are those on the lines that hold a text delta, in order |
| Sse.StopIs | internal/chat/openai.go:82-86 | the stop reason is that of the last completion, wherever it stands, or empty |
| Sse.RefusedIff | internal/chat/openai.go:87-95 | the reply is refused if and only if some line before the end marker holds a refusal, whatever follows |
| Sse.PayloadIff | internal/chat/openai.go:57-61 | a line holds a payload if and only if, between white space, it is "data: " and that payload |
| Sse.ScannedLines | internal/chat/openai.go:54-57 | the lines scanned are those between the breaks, an unended last one included, each without a carriage return at its end |
| Sse.DropsOne | internal/chat/openai.go:54-57 | a line loses one carriage return at its end if it has one, and nothing else |
| Sse.FramesReadIff | internal/api/sse.go:36-45 | scanning printed frames recovers the payloads in order if and only if each is non-empty, unbroken, without trailing space and not the end marker |
| Sse.FramesDispatched | internal/api/sse.go:36-45 | the standard's reader gives back every frame with its event name |
| Sse.ScanPrintScan | internal/chat/openai.go:54-64 | for any text, the payloads scanned off it, printed as frames and scanned again, are those payloads |
| UserMessages.BuildUserMessage | internal/api/usermessage.go:18-48 | accepts exactly the well-formed requests with their photos in order, otherwise reports the first fault |
| UserMessages.FirstErrorIff | internal/api/usermessage.go:31-44 | the error is that of the first photo that fails a check, and of the first check it fails |
| Prompt.Recent | internal/chat/history.go:19-27 | the reslicing and the role-fix loop leave the history from the specified start |
| Prompt.StartIs | internal/chat/history.go:19-27 | for any history: a multiple of 8 messages go so that 12 to 19 are left, none up to 19, then what is not the user's up to the user or the last message |
| Prompt.InputSays | internal/chat/openai_input.go:24-50 | every message holds its photos or one text that counts them, the block if it is the last, and its words, each once, in that order and nothing else |
| Prompt.BuildInput | internal/chat/openai_input.go:21-53 | the loop builds the specified input |
| Prompt.BuildMessage | internal/chat/openai_input.go:24-50 | one message is built as specified |
| Prompt.RetypeAll | internal/chat/openai_input.go:43-49 | rewriting the part types in place retypes text parts and no others |
| Prompt.StartMoves | internal/chat/history.go:20-22 | an exchange moves the start by nothing or by exactly 8 |
| Prompt.OneMoveInFour | internal/chat/history.go:5-16 | past the threshold exactly one of any four exchanges in a row moves the start |
| Prompt.PrefixStableIff | internal/chat/openai_input.go:24-40 | when the start stays, a position keeps its content if and only if it does not lose the memory block or its photos |
| Prompt.CachedPrefix | internal/chat/openai_input.go:21-53 | for alternating histories all but the last three messages are repeated word for word, and what changes in those three is exactly known |
| Prompt.NothingLost | internal/chat/openai_input.go:24-40 | every text and every photo in sight is in its message in order, older photos are counted, the memory block is in the last message only |
| Prompt.PhotosShown | internal/chat/openai_input.go:26-32 | the photos shown are those of the last three messages |
| Prompt.InputWellFormed | internal/chat/openai_input.go:21-53 | an alternating odd history gives an input that starts and ends with the user, alternates, and uses output_text exactly for the assistant |
| Joins.Join | internal/store/messages.go:22-57 | the two loops with the index map compute the join, or fail with an index out of range |
| Joins.JoinRightIff | internal/store/messages.go:22-57 | the join is the plain one, nothing lost or misplaced, if and only if every image's message is among the rows read |
| Joins.MessageImages | internal/store/messages.go:40-57 | a message has the photos of the image rows that name it, in order, with their ids and media types; without bytes only the bytes are missing |
| Joins.JoinedImages | internal/store/messages.go:22-57 | whatever the two queries read, every photo goes to the message its row names or, if that was not read, to the first |
| Joins.SnapshotCovered | internal/store/messages.go:40-44 | in one snapshot every image read belongs to a row read |
| Conversations.AppendTurns | internal/store/messages.go:63-107 | an append adds exactly its exchange to its conversation and nothing to any other |
| Conversations.DeleteTurns | internal/store/conversations.go:52-61 | a delete removes exactly its conversation's turns |
| Conversations.AppendSound | internal/store/messages.go:71-106 | an append keeps keys increasing and references resolved |
| Conversations.DeleteSound | internal/store/schema.go:17-31 | so does a cascading delete |
| Statements.Created | internal/store/conversations.go:13-20 | a new conversation is empty, untitled and stamped, changes no other row, and deleting it undoes it |
| Statements.Deleted | internal/store/conversations.go:52-61 | only its owner deletes a conversation; exactly its messages and their images go with it |
| Statements.Appended | internal/store/messages.go:71-106 | an exchange adds two messages and its photos under the question, sets the time and, the first time, a fitting title, and changes no other row |
| Statements.FindImageIff | internal/store/images.go:12-24 | a photo is found if and only if it has the id asked for and is on a message in a conversation of the owner |
| Statements.Added | internal/store/pantry.go:22-39 | rows that are there stay in place and only come into stock when listed; new rows are listed names with the time of adding |
| Statements.StockSet | internal/store/pantry.go:61-70 | only the owner's row with the id changes, only in its stock, and switching back undoes it |
| Statements.IngredientGone | internal/store/pantry.go:72-74 | only the owner's row with the id goes |
| Statements.EntryAdded | internal/store/journal.go:22-33 | an entry comes in last under its owner, and deleting it undoes it |
| Statements.EntryGone | internal/store/journal.go:63-65 | only the owner's entry with the id goes |
| Pantry.AddRefines | internal/store/pantry.go:22-39 | the upsert loop is an update of its owner's map, keeps names unique, and is nothing to other owners |
| Pantry.AddedPantry | internal/store/pantry.go:18-39 | what was listed is in stock, ids and all other names stay, new names get new ids |
| Pantry.AddTwice | internal/store/pantry.go:18-39 | adding a list again changes no row |
| Pantry.SetRefines | internal/store/pantry.go:61-70 | switching touches one name of one owner |
| Pantry.DeleteRefines | internal/store/pantry.go:72-85 | deleting takes out one name of one owner |
| Pantry.ListingSorted | internal/store/pantry.go:41-59 | the listing is strictly sorted by name and holds all of the owner's rows and no others |
| Pantry.ListingIsPantry | internal/store/pantry.go:41-59 | the listing is the owner's map, every name once with its id and stock |
| Kitchens.PantryIsItsOwnersDoing | internal/store/pantry.go:22-85 | over any run a pantry is exactly the map its owner's adding, switching and removing makes, listed strictly by name |
| Pantry.JournalKeepsNewest | internal/store/journal.go:35-61 | the journal's limit keeps the newest entries, ordered by date and id |
| Pantry.NewerIff | internal/store/journal.go:36-38 | newer is on a later date, or on the same date and entered later |
| Pantry.TextLessIff | internal/store/pantry.go:41-44 | one name is before another if it ends first or is smaller where they first differ |
| Pantry.AddSound | internal/store/schema.go:34-41 | upserts keep keys increasing and (owner, name) unique |
| Stores.Store.CreateConversation | internal/store/conversations.go:13-20 | a new id gives an empty untitled conversation, a taken one changes nothing |
| Stores.Store.DeleteConversation | internal/store/conversations.go:52-61 | removes what the owner owns with its messages and images, else reports not found |
| Stores.Store.Messages | internal/store/messages.go:12-58 | run alone it returns every message with its own photos, or not found |
| Stores.Store.AppendExchange | internal/store/messages.go:63-107 | whichever statement fails, all of the exchange is stored or none |
| Stores.Store.AddIngredients | internal/store/pantry.go:22-39 | the loop in the transaction is the specified upsert |
| Stores.Store.SetInStock | internal/store/pantry.go:61-70 | switches the row it returns, or reports not found and changes nothing |
| Stores.Store.DeleteJournalEntry | internal/store/journal.go:63-65 | removes the owner's entry, else reports not found |
| Sends.SendMessage | internal/api/send.go:41-99 | whatever lines the model sends and whichever read or statement fails, the handler's response, model input and final database are those of the phases in a row |
| Sends.Stream | internal/chat/openai.go:52-97 | the scan loop with its callback: one delta event for each delta in the lines, and the text is theirs |
| Sends.LinesToAnswer | internal/api/send.go:71-98 | from the model's lines to the client and the database: every delta reaches the client in order, then one last word; the deltas are stored as the answer if and only if the scan did not break, the model did not refuse and the transaction went through, and otherwise no turn is |
| Sends.BreakSaysSo | internal/api/send.go:75-81 | reading the response fails before an end marker: the deltas so far, then the error unless the client is gone, and no table changes |
| Sends.RefusalSaysSo | internal/api/send.go:82-85 | a refusal on any line before the end marker, whatever follows, or as the last completion's reason: the deltas, then that error, and no table changes |
| Sends.AnswerSaysSo | internal/api/send.go:87-98 | any other response is stored as one exchange, and done names the answer, the title and the last completion's reason; or the transaction fails, the client is told and no table changes |
| Sends.HandlerIsARun | internal/api/send.go:41-99 | from any reachable state, with whatever else in flight, those phases are a run of the transition system that ends where the handler ends |
| Invariant.NextKept | internal/api/send.go:57-98 | every action in every state keeps the whole invariant |
| Invariant.ReachableRight | internal/api/send.go:57-98 | the invariant holds in every reachable state |
| Invariant.NoneOfAnswer | internal/store/messages.go:40-56 | whatever happened between the two queries, no image is put on an answer |
| Runs.ConversationIsItsCommits | internal/store/messages.go:60-107 | in every reachable state a conversation is user and assistant in turns, exactly two messages per committed send, with the words and photos of those sends |
| Runs.TitleIsOfFirstMessage | internal/store/conversations.go:73-85 | in every reachable state a conversation is untitled exactly while empty; then its title is the first user message, cut to 60 characters and an ellipsis if longer, or "Photo" if that has no words |
| Runs.ReferencesResolve | internal/store/schema.go:17-31 | in every reachable state every message has its conversation and every image its user message |
| Runs.StreamTellsTheTruth | internal/api/send.go:71-98 | deltas, then at most one last event; done if and only if the exchange was stored, with exactly the streamed text |
| Runs.DoneNamesTheAnswer | internal/api/send.go:87-98 | in every reachable state the message named by done is the stored answer, and the title it gave is the conversation's if and only if reading it after the commit did not fail |
| TornReads.EmptyTitleSent | internal/api/send.go:93-98 | a run that stores the answer, titles the conversation and says done without a title |
| Runs.ConversationOnlyGrows | internal/store/messages.go:71-106 | from any reachable state on, what was said stays, a title stays, and a deleted conversation never returns |
| Runs.SnapshotStaysPrefix | internal/api/send.go:57-92 | the rows a send read stay a prefix; when the conversation is gone the append fails and leaves no row |
| Runs.StreamOnlyGrows | internal/api/send.go:71-98 | a stream is only added to, nothing follows its last event, and the history does not change once it streams |
| Isolation.ReadsSeeOnlyTheirs | internal/store/images.go:12-24 | every read an owner can make depends on their own share alone |
| Isolation.ForeignKept | internal/store/store.go:1-5 | whatever another owner does leaves this owner's rows and sends as they are |
| Isolation.OthersLeaveNoTrace | internal/store/store.go:1-5 | erasing all others from any run, identifiers kept, leaves a run whose database is this owner's share and whose sends are this owner's sends |
| Renaming.NextNamed | internal/store/schema.go:18-44 | an action by other identifiers in the same order does the same by those identifiers |
| Renaming.RunNamed | internal/store/schema.go:18-44 | one run happens if and only if the renamed one does, and they end the same up to the renaming |
| Renaming.EveryRunUnbroken | internal/store/schema.go:18-44 | every run is, up to an order-preserving renaming, a run whose identifiers are 1, 2, 3, ... without a gap |
| Renaming.AloneUpToNames | internal/store/store.go:1-5 | for any run and owner there is a run of that owner alone, doing the same with gapless identifiers, that ends with this owner's rows, sends and streams up to renaming |
| Renaming.SameDoingsUpToNames | internal/store/store.go:1-5 | two runs in which an owner does the same, under whatever identifiers in the same order, end the same for that owner up to those |
| Composed.EveryInputWellFormed | internal/chat/openai_input.go:21-53 | in every reachable state the input of a send is well formed, whole or of 13 to 19 messages, and the role-fix loop has nothing to do |
| Composed.FaithfulInputComplete | internal/chat/openai_input.go:26-40 | a history that is what was said gives at most 8 photos and no empty user message |
| Inputs.InputFitsIff | internal/chat/openai_input.go:26-32 | in every reachable state the input shows at most 8 photos if and only if not exactly one exchange was read with more images than leave room for 8 |
| Inputs.InputSaysIff | internal/chat/openai_input.go:24-40 | in every reachable state no user message in the input is empty if and only if the conversation was there at the image query or every question in the window has words |
| Inputs.IndexFailsIff | internal/store/messages.go:54-55 | in every reachable state the join indexes an empty slice if and only if no rows were read and a message with photos is there now |
| Composed.IntactIsFaithful | internal/store/messages.go:17-57 | nothing stored or deleted between the two queries makes the history faithful for good |
| Composed.ReadFaithfulIff | internal/store/messages.go:17-57 | the history read is right if and only if no photos were stored in between and, after a delete, the rows read had none |
| Composed.NextInputKeepsPrefix | internal/chat/history.go:12-15 | two faithful sends in a row share the cacheable prefix, whatever ran in between |
| TornReads.EmptyMessageSent | internal/store/messages.go:40-57 | a run that sends the model an empty user message |
| TornReads.TooManyPhotosSent | internal/store/messages.go:54-55 | a run that shows the model 12 photos, 8 of them on the wrong message |
| TornReads.IndexOutOfRange | internal/store/messages.go:54-55 | a run in which the join indexes an empty slice |
| Kitchens.BlockTellsPantryIff | internal/chat/memory.go:24-65 | in every reachable state the block tells the cleaned name of each ingredient in stock and of each that is out, if and only if the only thing in stock is not called "nothing" |
| Kitchens.EveryIngredientTold | internal/chat/memory.go:24-42 | in every reachable state, outside that case, the two lists read off the block have one item for each ingredient, and a name is read as available if and only if some ingredient in stock cleans to it |
| Kitchens.EveryBlockLaidOut | internal/chat/memory.go:24-58 | in every reachable state the block keeps its layout, with at most 15 entries |
| Kitchens.EveryEntryTold | internal/chat/memory.go:43-56 | in every reachable state every journal entry read has its line below the day's heading, which tells all of it if and only if the cleaned dish holds no colon |
| Kitchens.NewestAreRead | internal/api/memory.go:12-21 | in every reachable state the journal read for the model is the owner's newest 15 entries, or all if fewer, newest first |
| Kitchens.PastedListReachesModel | internal/api/names.go:12-33 | every name of a pasted list that parses, as cleaning leaves it, is told to the model as in stock if and only if the only thing in stock is not called "nothing" |
| Kitchens.TagsAloneArePlain | internal/chat/memory.go:67-72 | a name that can be pasted and stored, and that the block lists as an empty name |

## Left out

- Floating point inside the rate limiter's buckets: credit is exact whole nanoseconds.
- The header form of Retry-After: only its number of seconds is modelled.
- SQLite and its driver: tables are values, transactions are atomic. Every listed ingredient draws an identifier, whether its row is new or not; other increasing identifiers are these up to renaming (`Renaming.RunNamed`).
- Random conversation identifiers: assumed never to repeat, also after a delete.
- Listing conversations: one sorted read of the owner's rows, with no further property.
- HTTP routing, JSON, base64, content sniffing, CORS, logging, deadlines and the recovery of a panic.
- The request to OpenAI and the prompt text: the model's response comes in as lines, the decoding of its events as given.
- A stored answer need not have seen a completion event: a clean end of the model stream is enough for the code.
- Session tokens, HMAC, RSA and the checks of a Google token other than finding its key.
- Configuration, start-up and journal field validation, of which only the date form and the taste range are used.
- A crash of the process between the commit and its event: every state of a run is covered, restarts are not.
- Driver failures of the store's single-statement changes: nothing changes then, as when the row is not there.
- The table of Unicode lower-casing: lower-casing is any map of characters that, done twice, changes nothing more and neither makes nor removes separators and white space; the ASCII map is shown to be one.
- Text that is not valid UTF-8: strings are sequences of characters.
- The 2 MiB limit on a line of the model stream: a longer line is one way for the stream to break.
- Sends.SendMessage: the handler as one call, with nobody in between its phases; what may happen between them is in the transition system, of which the handler is a run.
