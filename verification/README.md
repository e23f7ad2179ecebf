# Verification of the cache stack, tokens, application life cycle and object paths

This project models the parts of the repository where correctness is not obvious from reading one function, and
proves properties of them for all inputs, runs and interleavings. `dafny verify dfyconfig.toml` checks everything.

## What is modelled

**The Redis client** (`Decimal`, `Resp`, `RespWire`, `RespIO`, `RedisLink`). The reply parser is a function on the unread
bytes, with an imperative reader proved equal to it and a printer for reply trees as its partner. The connection is a
class with the client's two fields; its calls meet a network that may fail at any byte and a server that sends one reply
per command. The main results are that replies are never attributed to the wrong command, and that a call succeeds exactly
if nothing stands in its way.

**The stores** (`TtlMap`, `MemoryStore`, `DatabaseStore`). `TtlMap` is the promise of the cache interface: a map from keys to
bytes with an optional deadline, from which expired entries vanish at once. The memory store is a class over a map of byte
slices that deletes lazily; the database store is a class over a SQL handle any of whose statements may be refused. Both are
proved to answer every run as the map does.

**The stores under concurrency** (`Journal`, `MemoryLocks`, `MemoryCalls`, `DatabaseTx`, `DatabaseCalls`, `DatabaseAlone`). One step is one critical section of the memory
store, or one SQL statement of the database store. Both machines produce a journal of atomic acts, and the results about
journals are proved once for both. The right specification is a map that may forget: the delete that a read performs after
it has judged an entry expired can hit a newer write. What can be lost, and that nothing else can, is proved. An operation that
nobody interrupts is proved to be the sequential one, so the machines take the same steps as the classes. And whatever is
interleaved, each commit does what one caller asked for, each call that ends is answered once and by its own act, errors of
the database have causes, and no circle of clients waits for each other.

**Compositions** (`CacheStore`, `FallbackStore`, `Prefixes`) and **clients** (`RateLimit`, `RateLimitLocks`, `Tokens`, `TokenLocks`). Two stores as one across a
failure of the first; prefixed views of one store; the rate limiter in closed form, sequentially and at lock granularity; the lifetime of a
token, sequentially and at lock granularity.

**The application** (`Lifecycle`) from the registrations in the container to the last closer, and **object paths** (`Paths`):
what is accepted, and that nothing opened lies outside the root.

## Where the code does less than one may expect

Each of these comes with the condition that rules it out, and with a run, or a whole family of runs, that shows it.

- An error reply inside an array ends the parse there. The stream stays at a reply boundary if and only if nothing follows an
  error inside an array (`RespWire.AlignedIff`, `RedisLink.BoundaryIffAligned`). Off a boundary, calls report the replies of
  earlier ones (`RedisLink.LeftoverIsReadNext`).
- The connection wraps handshake errors in a way that `errors.Is` and `errors.As` see through, so a nil or command error may
  be the handshake's. It is the caller's own if and only if the connection was up or every handshake command was answered with a value
  (`RedisLink.ReportedErrorIsOwn`); `Get` then reports a miss (`RedisLink.HandshakeNilReadsAsMiss`).
- `Get`, `Exists` and `TTL` of the memory and the database store can drop a live entry, but only one that was written between
  their look and their late delete (`MemoryLocks.OnlyDeferredDeletesForget`, `MemoryLocks.ANewWriteCanBeForgotten`). A key
  differs from the atomic map if and only if that has happened to it (`MemoryLocks.OtherwiseAtomic`,
  `DatabaseTx.OtherwiseAtomic`).
- Therefore a window of the rate limiter may admit more than limit - 1 hits: as many again for every counter dropped that way
  (`RateLimitLocks.AtMostLimitMinusOnePerDrop`, `RateLimitLocks.MoreThanTheLimitAllows`).
- The fallback store drops an expiry if and only if `Increment` without a lifetime meets a counter that has one
  (`FallbackStore.StepInSync`, `FallbackStore.DroppedExpiryShows`).
- A token whose expiry lies more than the longest `Duration`, some 292 years, ahead of the store's clock is dropped before it
  expires (`Tokens.StoreOutlivesClaimsIff`, `Tokens.FarExpiryEndsEarly`).
- Cleaning a path is idempotent if and only if it does not begin with two slashes (`Paths.IdempotentIff`). Opening a public path
  cleans twice, which matters to `//` alone (`Paths.OpensUnderChosenRoot`).
- A disk that is configured without a root directory opens an absolute path if and only if the object path begins with two
  slashes (`Paths.OpenPathContained`, `Paths.EmptyRootEscapes`). Through the manager's public paths this cannot happen, because
  of the second cleaning.

The database's expiry column wraps past the year 2262, too, but that is harmless for clocks before that year
(`DatabaseStore.ColumnDeadline`).

## Reading the model

Times are integer nanoseconds, passed to each call as the clock reading it makes; a run's readings never go back. Counters are
decimal bytes and wrap at 64 bits as in the code. Strings and byte slices are sequences of bytes. Network behaviour, database
faults, the outcome of `Start`, `Stop` and `Close`, and random tokens are parameters over which every result quantifies.
Methods of classes are proved against a step function (`Step`, `DoStep`, `HitStep`, ...), about which the results are proved.

## Model

| member | source | states |
|---|---|---|
| `Resp.ReadReply` | cache/redis.go:341-422 | Every successful parse consumes at least two bytes, no parse adds any; the array recursion ends by remaining bytes, then remaining elements |
| `Resp.RestIsSuffix` | cache/redis.go:341-430 | What a parse leaves, successful or not, is a suffix of its input: bytes are consumed from the front only |
| `Resp.ReadReplyExtended` | cache/redis.go:341-430 | Prefix determinism: unless the parser ran out of bytes, neither its outcome (value or error) nor its consumption depends on what follows |
| `RespWire.ReadBack` | cache/redis.go:341-430 | On every well-formed reply tree, errors and nulls anywhere, followed by any bytes: the parser reports the first error in reading order, else the tree, and leaves exactly what lies behind that first error, then the following bytes |
| `RespWire.RoundTrip` | cache/redis.go:341-404 | Every error-free tree of any depth comes back whole with exactly the following bytes left; nested nulls are elements, and only a top-level null becomes the nil error |
| `RespWire.TruncationNoticed` | cache/redis.go:341-430 | An aligned reply cut at any byte is an end-of-stream error if and only if the cut is before its last byte |
| `RespWire.CutReads` | cache/redis.go:341-430 | However much of a well-formed reply arrives, the parser reports its meaning or the end of the stream, never a bad number or prefix, and never a length that cannot be allocated |
| `RespWire.AlignedIff` | cache/redis.go:396-404 | Parsing a reply ends at its boundary if and only if no array in it has an element behind one that holds an error |
| `RespWire.NestedErrorMisaligns` | cache/redis.go:397-403 | A concrete array with an error before another element: that element is left on the stream as if it were the next reply |
| `RespWire.LiteralLines` | cache/redis.go:341-372 | In literal byte numbers: what the parser makes of a simple string, an error, a null, a boolean and an integer line |
| `RespWire.LiteralLengths` | cache/redis.go:373-404 | In literal byte numbers: what it makes of bulk strings and arrays, by the announced length: nil, too long, cut short, or the bytes and what is behind the two after them |
| `RespWire.LiteralRefused` | cache/redis.go:341-422 | Every other first byte is refused and only that byte is consumed |
| `RespIO.ByteReader.ReadLineText` | cache/redis.go:424-430 | A line is what precedes the first line feed, without one trailing carriage return; without a line feed everything is consumed and the read fails |
| `RespIO.ReadReplyFrom` | cache/redis.go:341-422 | The imperative reader yields the outcome and leaves the stream that the parser function says, on every stream |
| `RespIO.ReadBlobFrom` | cache/redis.go:376-380 | A bulk payload takes length + 2 bytes or fails; a length whose sum with 2 overflows, on which the source panics, is an outcome of its own |
| `RespIO.ReadItemsFrom` | cache/redis.go:396-404 | The element loop agrees with the recursive specification at every turn and stops at the first failing element |
| `RespIO.WriteCommand` | cache/redis.go:297-314 | Over a connection that carries any number of bytes: the whole encoding, which CommandBack reads back as the payloads, goes out and the call succeeds, or exactly that many of its first bytes go out and it fails |
| `RespIO.WriteArg` | cache/redis.go:302-311 | The three writes of an argument send header, data and line break, cut off where the connection breaks |
| `RespIO.CommandIsReply` | cache/redis.go:297-314 | A command is printed as the RESP array of bulk strings of its arguments, at every prefix of the argument loop |
| `RespIO.CommandBack` | cache/redis.go:297-339 | The reply parser reads a command back as a list with one element per argument, the payload of each as the caller passed it (strings and bytes themselves, nil as empty, integers as digits that parse to them), and leaves what follows |
| `RespIO.CommandsRoundTrip` | cache/redis.go:297-339 | Any number of commands written back to back are read back in order, each with the payloads the caller passed, with nothing left over |
| `RespIO.RedisInt64Inverts` | cache/redis.go:445-460 | Every int64 survives being printed as an argument and converted back from a bulk string, a simple string or an integer |
| `Decimal.ParseFormat` | cache/memory.go:104-117 | Parsing inverts formatting on every int64, the least one included, so a counter read back is the counter written |
| `Decimal.ParsedIff` | cache/memory.go:104-117 | A number is parsed exactly from its spellings: an optional sign, then one or more digits, that stand for an int64 |
| `Decimal.BeyondRange` | cache/memory.go:104-117 | A spelling of a number beyond int64 is rejected with the end of the range it passed |
| `Decimal.FormatIntIs` | cache/memory.go:112-117 | An integer is written with a minus sign exactly if it is negative, then the digits that stand for its size, without leading zeros |
| `RedisLink.RedisConn.DoLocked` | cache/redis.go:267-275 | Deadline, write, read: the answer and the unread stream are those of one exchange, a failed deadline or write leaves the stream alone, and what goes out is the command, as far as the connection carries it |
| `RedisLink.RedisConn.ConnectLocked` | cache/redis.go:232-265 | After AUTH, SELECT (each if configured) and PING the connection is up with what these replies left unread, and exactly these commands were sent; the first failure closes it and is reported as that handshake step's |
| `RedisLink.RedisConn.CloseLocked` | cache/redis.go:287-295 | The connection and its reader are gone together |
| `RedisLink.RedisConn.Do` | cache/redis.go:196-218 | New connection state, result and bytes sent for every network behaviour: only nil and command errors of the own command keep the stream, and nothing is sent for an empty command or a finished context |
| `RedisLink.TalkClean` | cache/redis.go:267-275 | On a clean stream an exchange that is delivered reports the meaning of this reply and leaves its leftover; one that is not is found broken |
| `RedisLink.ShakeClean` | cache/redis.go:241-264 | A handshake succeeds if and only if each of its commands is delivered and answered with a value, and then leaves a clean stream |
| `RedisLink.DoFaithful` | cache/redis.go:196-218 | One call on a clean connection: a value, nil or command error not from the handshake is the reply to this command and leaves a clean stream; any other error leaves the connection closed or untouched |
| `RedisLink.RepliesNeverMixed` | cache/redis.go:196-295 | Over every run of calls with failures anywhere and aligned replies: after each call the connection is closed or at a reply boundary, and each result is that call's own |
| `RedisLink.DoEnds` | cache/redis.go:196-218 | On a clean connection, with aligned replies: a call returns a value if and only if it has arguments, the context is alive, the connection is up or can be dialled with every handshake command accepted, and the server accepts the command; otherwise it reports exactly the first of these obstacles, with the handshake stage at fault |
| `RedisLink.CallsEnd` | cache/redis.go:196-295 | The same for every call of every run |
| `RedisLink.AcceptedIff` | cache/redis.go:241-264 | The handshake is accepted if and only if AUTH is where a password is set, SELECT where the database is not the first, and PING is always |
| `RedisLink.HandshakeReceived` | cache/redis.go:241-264 | What a server reads in a handshake, in literal bytes: AUTH with the user name, if any, and the password exactly if the password is not empty, then SELECT with the number exactly if it is not zero, and last PING |
| `RedisLink.NothingUnreadable` | cache/redis.go:196-295 | Over every such run the cause of each error is the transport, or a nil or error reply; so the panic on an overflowing length is never reached |
| `RedisLink.BoundaryIffAligned` | cache/redis.go:214-217 | After a delivered reply the connection is at a reply boundary if and only if the reply is aligned |
| `RedisLink.LeftoverIsReadNext` | cache/redis.go:267-275 | And once a whole reply is left on the stream, the next call that reaches the server reports that one as its own and leaves its own reply behind |
| `RedisLink.ReportedErrorIsOwn` | cache/redis.go:208-217 | A nil or command error stands for the caller's own reply if and only if the connection was up or every configured handshake command was delivered and answered with a value |
| `RedisLink.HandshakeNilReadsAsMiss` | cache/redis.go:260-263 | A null reply to PING makes Get report a miss for a key that was never asked for, because the handshake error wraps the nil error |
| `TtlMap.ReadsInvisible` | cache/cache.go:18-27 | In the TTL map, leaving all reads out of a run changes no answer of the writes |
| `TtlMap.RunAgrees` | cache/cache.go:18-27 | Contents with the same live view answer every later run alike |
| `MemoryStore.Memory.Get` | cache/memory.go:29-45 | Result and new contents on a present, expired or missing item; the returned slice is fresh |
| `MemoryStore.Memory.Set` | cache/memory.go:47-60 | The item under the key is replaced by a fresh copy with the new deadline, others stay |
| `MemoryStore.Memory.Take` | cache/memory.go:62-78 | The item is removed whether live or expired, and returned in a fresh slice only if live |
| `MemoryStore.Memory.Exists` | cache/memory.go:80-88 | Found exactly when Get hits, with Get's deletion of an expired item |
| `MemoryStore.Memory.Increment` | cache/memory.go:90-121 | An expired item counts from zero, a malformed one is an error, the sum wraps at 64 bits, and a lifetime that is not positive keeps the deadline |
| `MemoryStore.Memory.TTL` | cache/memory.go:123-142 | Zero without a deadline, the time left before it, a miss and a deletion from then on |
| `MemoryStore.Memory.Delete` | cache/memory.go:144-149 | The item is gone, others stay, at any clock reading |
| `MemoryStore.SlicesAreCopied` | cache/memory.go:29-60 | Writing to the slice given to Set, or to the one returned by Get, does not change what the store holds |
| `MemoryStore.StepRefines` | cache/memory.go:29-149 | One operation answers like the TTL map and leaves the same live view |
| `MemoryStore.RunRefines` | cache/memory.go:29-149 | Over every run under a clock that does not go back, the store's answers are the TTL map's |
| `MemoryStore.LazyDeletionInvisible` | cache/memory.go:36-41 | Leaving the reads, and so their lazy deletions, out of any run changes no answer of the writes |
| `DatabaseStore.Database.Get` | cache/database.go:101-124 | Result and new table under any fault; a failing lazy delete is ignored |
| `DatabaseStore.Database.Set` | cache/database.go:126-154 | Delete and insert become visible together at the commit; any fault leaves the table and ends the transaction once |
| `DatabaseStore.Database.Take` | cache/database.go:156-193 | The row is removed even if expired, and handed out only if live; any fault leaves the table and ends the transaction once |
| `DatabaseStore.Database.Exists` | cache/database.go:195-203 | Found exactly when Get hits; errors of the database pass through |
| `DatabaseStore.Database.Increment` | cache/database.go:205-281 | The new count and column under any fault, on all of its six ways out; each begun transaction ends exactly once |
| `DatabaseStore.Database.TTL` | cache/database.go:283-307 | Zero for column zero, the wrapped difference otherwise, a miss and a delete when it is not positive |
| `DatabaseStore.Database.Delete` | cache/database.go:309-315 | The row is gone, or the statement failed and nothing changed |
| `DatabaseStore.ColumnDeadline` | cache/database.go:130-133 | For every clock reading in range and every ttl the stored column, wrapped or not, denotes the deadline the TTL map keeps |
| `DatabaseStore.StepRefines` | cache/database.go:101-315 | A call is refused and changes nothing, or answers like the TTL map and leaves the same live view |
| `DatabaseStore.ErrorsChangeNothing` | cache/database.go:101-315 | Every error answer leaves the live view as it was; a refused statement leaves even the rows |
| `DatabaseStore.RunRefines` | cache/database.go:101-315 | Over every run with faults anywhere, the answers are those of the TTL map on which the refused calls never happened |
| `DatabaseStore.StoresAgree` | cache/database.go:101-315 | Without faults the database, the memory store and the TTL map answer every run identically |
| `Journal.HitIsLatestWrite` | cache/memory.go:29-78 | In a legal journal a hit is some earlier write with no act on its key in between |
| `Journal.NothingReappears` | cache/memory.go:29-149 | A removed or overwritten write is in no later state, under any key |
| `Journal.TakenOnce` | cache/memory.go:62-78 | No write is taken by two acts, whichever keys they name |
| `Journal.HandedOutOnce` | cache/memory.go:62-78 | If no act answers twice, no write is handed out to two callers of Take |
| `Journal.LostWasWrittenAfterLook` | cache/memory.go:36-39 | A deferred delete drops a live entry only if that was written after the look it goes back to |
| `Journal.DiffersIffForgotten` | cache/memory.go:29-142 | A key looks different than in the map that took the same acts without forgetting if and only if an entry of it that would still be alive was forgotten and nothing but forgetting has touched it since; then it is absent, and that map holds the lost entry |
| `Journal.PresentIsSame` | cache/memory.go:29-142 | An entry that is present is the very same one in the map that does not forget |
| `Journal.CountsAdd` | cache/memory.go:90-121 | From a plain counter, acts that only count leave it at the start value plus the sum of their deltas, modulo 2^64 |
| `Journal.CountReported` | cache/memory.go:90-121 | Each counting act reports the running sum at its place |
| `MemoryLocks.EveryInterleaving` | cache/memory.go:29-149 | Under every interleaving of critical sections the store is a map that may forget: contents are the replay of a legal journal, every answer is what one act on its key says, no act answers twice, and no change goes unanswered |
| `MemoryLocks.ChangesAreReportedOnce` | cache/memory.go:47-149 | Every write, count, take and delete is reported truthfully to the goroutine that made it, once, and to nobody else |
| `MemoryLocks.HitsAreLatestWrites` | cache/memory.go:29-78 | Every hit of Get or Take is the latest write to its key at its read step, alive at its clock reading |
| `MemoryLocks.TakesAreExclusive` | cache/memory.go:62-78 | Under every interleaving no two callers of Take are handed the same written item |
| `MemoryLocks.RemovedStaysRemoved` | cache/memory.go:29-149 | Under every interleaving no removed or overwritten item is ever in the store again |
| `MemoryLocks.OnlyDeferredDeletesForget` | cache/memory.go:36-39 | A live item is lost only to the late delete of Get, Exists or TTL, and only if written after that call had looked |
| `MemoryLocks.OtherwiseAtomic` | cache/memory.go:29-142 | For every key and run: it looks different than in the map that took the same acts without forgetting if and only if a late delete has dropped an entry of this very key that would still be alive, and nothing but more late deletes touched it since; then it is absent; what is present is the same in both |
| `MemoryLocks.ANewWriteCanBeForgotten` | cache/memory.go:29-41 | A concrete interleaving of a Get and two Sets after which a live item without a deadline is gone |
| `MemoryLocks.CountersConserved` | cache/memory.go:90-121 | On a counter that never expires, any interleaving of increments and reads (and anything on other keys) leaves the start value plus the sum of the deltas, modulo 2^64 |
| `MemoryLocks.IncrementsReportRunningSum` | cache/memory.go:90-121 | And every such increment is answered with the running sum at its step |
| `MemoryCalls.EveryActWasAskedFor` | cache/memory.go:29-149 | Over every interleaving each act is what the caller of its call asked for: a Set stores that key and value with the deadline counted from its own clock reading, an Increment adds that delta at its clock reading, Take, Delete and late deletes act for their callers |
| `MemoryCalls.NoCallChangesTwice` | cache/memory.go:47-149 | No two changes belong to one call |
| `MemoryCalls.EveryAnswerIsTheCalls` | cache/memory.go:29-149 | Each answer is of the kind its call may get, for its key, at a clock reading within the call, and goes back to an act of that very call |
| `MemoryCalls.EveryCallIsAnswered` | cache/memory.go:29-149 | Every call that has begun is still going on or has been answered |
| `MemoryCalls.NoCallIsAnsweredTwice` | cache/memory.go:29-149 | No two answers belong to one call |
| `MemoryCalls.EveryCallEnds` | cache/memory.go:29-60 | A goroutine in the middle of a call is done after its next step, or after the one behind that |
| `MemoryLocks.UninterruptedIsSequential` | cache/memory.go:29-149 | In every reachable state, an operation whose critical sections nobody interrupts gives the answer and the items of the sequential store, and leaves nothing behind |
| `DatabaseTx.EveryInterleaving` | cache/database.go:101-315 | Under every interleaving of SQL statements with faults anywhere, also while a statement waits, on both drivers: the committed table is the replay of the journal of commits, every answer but a database error is what one act of that client says, no act answers twice, and no committed change goes unanswered |
| `DatabaseTx.ChangesAreReportedOnce` | cache/database.go:126-315 | Every committed change is reported truthfully to the client that made it and to nobody else, or its Take has committed and that client is about to be told |
| `DatabaseTx.OnlyCommitsPublish` | cache/database.go:126-281 | No statement but a commit, or a delete outside a transaction, changes the committed table |
| `DatabaseTx.SetCommitsAtomically` | cache/database.go:130-153 | At its commit Set does, to the table as it is then, what the TTL map's operation does with what the client carries, answer included; other keys stay. That the client carries what its caller passed is DatabaseCalls.EveryActWasAskedFor |
| `DatabaseTx.TakeCommitsAtomically` | cache/database.go:166-186 | At its commit Take removes the very row it read, which is still the committed one |
| `DatabaseTx.IncrementCommitsAtomically` | cache/database.go:216-280 | At its commit Increment does to the row as it is then what the TTL map's operation does, answer included |
| `DatabaseTx.RefusalChangesNothing` | cache/database.go:126-281 | A call that ends with a database error leaves the committed table and the journal as they were |
| `DatabaseTx.HitsAreLatestWrites` | cache/database.go:101-193 | Every hit of Get or Take is the latest committed write to its key at its read step |
| `DatabaseTx.TakesAreExclusive` | cache/database.go:156-193 | No two callers of Take are handed the same written row |
| `DatabaseTx.OnlyDeferredDeletesForget` | cache/database.go:117-120 | A live row is lost only to the late delete of a read that had looked before the row was committed |
| `DatabaseTx.OtherwiseAtomic` | cache/database.go:101-315 | For every key and run: the committed table differs from the map that took the same commits without the late deletes if and only if one of these has dropped a row of this very key that would still be alive, and nothing but more of them touched it since |
| `DatabaseTx.CountersConserved` | cache/database.go:205-281 | On a never-expiring key touched by increments only, the value is the start value plus all committed deltas, modulo 2^64, whatever fails and whoever waits |
| `DatabaseTx.IncrementsReportRunningSum` | cache/database.go:205-281 | And every such committed increment is answered with the running sum at its commit |
| `DatabaseCalls.EveryActWasAskedFor` | cache/database.go:101-315 | Over every interleaving and any faults each committed act is what the caller of its call asked for: a Set commits the very value for the very key with the deadline counted from the clock reading at its start, an Increment adds that delta with a lifetime counted from a reading within the call; Take, Delete and late deletes act for their callers |
| `DatabaseCalls.NoCallChangesTwice` | cache/database.go:126-315 | No two committed changes belong to one call |
| `DatabaseCalls.EveryAnswerIsTheCalls` | cache/database.go:101-315 | Each answer is of the kind its call may get, for its key, at a clock reading within the call, and unless it is a database error it goes back to an act of that very call |
| `DatabaseCalls.EveryCallIsAnswered` | cache/database.go:101-315 | Every call that has begun is still going on or has been answered |
| `DatabaseCalls.NoCallIsAnsweredTwice` | cache/database.go:101-315 | No two answers belong to one call |
| `DatabaseCalls.ErrorsHaveCauses` | cache/database.go:126-281 | A database error comes from a statement that failed, or from the INSERT of a key that the call had found absent and that somebody has committed since |
| `DatabaseCalls.StepsAdvance` | cache/database.go:101-315 | A client that need not wait gets on: each of its statements brings its call nearer to its end, of at most five |
| `DatabaseCalls.NoCircleOfWaiting` | cache/database.go:126-281 | No deadlock in any reachable state: who waits, waits for the transaction of another client, on MySQL one on the same key, that does not wait itself |
| `DatabaseCalls.CallsBegin` | cache/database.go:101-315 | A call begins at once unless such a transaction keeps it off |
| `DatabaseAlone.UninterruptedIsSequential` | cache/database.go:101-315 | From every reachable state, an operation whose statements nobody interrupts gives the rows and the answer of the sequential store, whichever of its statements fail, and leaves no transaction and no lock |
| `FallbackStore.Fallback.Get` | cache/fallback.go:22-36 | Answer and both stores, with either store missing, down or missing the key |
| `FallbackStore.Fallback.Set` | cache/fallback.go:38-47 | Both stores are written and the errors joined |
| `FallbackStore.Fallback.Take` | cache/fallback.go:49-66 | A hit in the primary also deletes from the fallback; a miss or error goes on to the fallback |
| `FallbackStore.Fallback.Exists` | cache/fallback.go:68-85 | Found if either store has the key; the fallback's error wins |
| `FallbackStore.Fallback.Increment` | cache/fallback.go:87-104 | The primary's count is mirrored by a Set; an error of the primary goes on to the fallback |
| `FallbackStore.Fallback.TTL` | cache/fallback.go:106-120 | The primary's lifetime, else the fallback's |
| `FallbackStore.Fallback.Delete` | cache/fallback.go:122-131 | Both stores are deleted from and the errors joined |
| `FallbackStore.ReadsAnswer` | cache/fallback.go:22-36 | Get, Exists and TTL of any two stores, either of them missing or down: the primary's entry if it holds one live or there is no other store, otherwise what the fallback shows; neither store changes what it shows |
| `FallbackStore.TakeAnswers` | cache/fallback.go:49-66 | Take returns what Get would have, and afterwards no store that can be reached holds the key; other keys stay |
| `FallbackStore.WritesAnswer` | cache/fallback.go:38-47 | Set and Delete reach every store that can be reached, report every one that cannot, and leave other keys alone |
| `FallbackStore.IncrementAnswers` | cache/fallback.go:87-104 | Increment counts in the primary if that can count, and then a reachable fallback holds the count with the lifetime of the call; otherwise the fallback counts by itself, or the primary's error is returned if there is none |
| `FallbackStore.StepInSync` | cache/fallback.go:22-131 | While both stores hold the map's live view a call answers like the map, and the fallback stays in step if and only if the call is not an increment without lifetime on a counter that has one |
| `FallbackStore.StepAfterFailure` | cache/fallback.go:22-131 | With the primary down the fallback alone is the map; Set and Delete report the primary's error |
| `FallbackStore.FailureGoesUnnoticed` | cache/fallback.go:22-131 | Wherever in a run the primary goes down, the answers are those of one TTL map that never noticed, and the fallback ends up holding what that map holds; as long as the primary is up, so does the primary |
| `FallbackStore.DroppedExpiryShows` | cache/fallback.go:91-92 | A concrete run in which the mirroring Set drops an expiry and the fallback later returns what has expired |
| `Prefixes.KeysCompose` | cache/redis.go:488-494 | Prefixing a prefixed key is prefixing with the prefixed prefix, for all strings |
| `Prefixes.KeyIs` | cache/redis.go:488-494 | An empty prefix adds nothing, any other is set off by one colon, and colons at its end make no difference |
| `Prefixes.KeysMeetIff` | cache/redis.go:488-494 | Two prefixes can produce one and the same key if and only if one's lead begins with the other's |
| `Prefixes.Prefixed.Get` | cache/prefix.go:21-23 | The answer and the new contents of the view under the prefix are the TTL map's, and the wrapped store changes as by its own operation under the longer key |
| `Prefixes.Prefixed.Set` | cache/prefix.go:25-27 | The answer and the new contents of the view under the prefix are the TTL map's, and the wrapped store changes as by its own operation under the longer key |
| `Prefixes.Prefixed.Take` | cache/prefix.go:29-31 | The answer and the new contents of the view under the prefix are the TTL map's, and the wrapped store changes as by its own operation under the longer key |
| `Prefixes.Prefixed.Exists` | cache/prefix.go:33-35 | The answer and the new contents of the view under the prefix are the TTL map's, and the wrapped store changes as by its own operation under the longer key |
| `Prefixes.Prefixed.Increment` | cache/prefix.go:37-39 | The answer and the new contents of the view under the prefix are the TTL map's, and the wrapped store changes as by its own operation under the longer key |
| `Prefixes.Prefixed.TTL` | cache/prefix.go:41-43 | The answer and the new contents of the view under the prefix are the TTL map's, and the wrapped store changes as by its own operation under the longer key |
| `Prefixes.Prefixed.Delete` | cache/prefix.go:45-47 | The answer and the new contents of the view under the prefix are the TTL map's, and the wrapped store changes as by its own operation under the longer key |
| `Prefixes.ViewIsMap` | cache/prefix.go:21-55 | Through its prefix a store is a TTL map of its own: same answers, same contents |
| `Prefixes.OtherViewUntouched` | cache/prefix.go:21-55 | An operation under one prefix leaves the live view under a prefix apart from it |
| `Prefixes.ViewsAreIndependent` | cache/prefix.go:21-55 | Under every interleaving two views apart from each other answer as two TTL maps that know nothing of each other |
| `RateLimit.RateLimiter.Hit` | cache/rate_limit.go:37-56 | One increment and one lifetime query at two clock readings, on the prefixed key of the caller's key, which SameCounterIff says is shared by no other |
| `RateLimit.RateLimiter.Peek` | cache/rate_limit.go:58-85 | Count and lifetime without counting, on the caller's own counter; zero on a miss, an error on a malformed counter |
| `RateLimit.RateLimiter.Reset` | cache/rate_limit.go:87-89 | The caller's own counter is gone and nothing else changes |
| `RateLimit.SameCounterIff` | cache/rate_limit.go:91-94 | Two caller keys share a counter if and only if they are equal up to surrounding white space |
| `RateLimit.KeysAreIndependent` | cache/rate_limit.go:37-94 | A Hit, Peek or Reset under one key leaves the count and the lifetime that a Peek reports under another |
| `RateLimit.StreakIsLongest` | cache/rate_limit.go:37-56 | The streak is the longest suffix of hits in which each came within the window of the one before: a suffix is chained if and only if it is no longer |
| `RateLimit.ClosedForm` | cache/rate_limit.go:37-94 | For every caller key, over every history of hits with positive windows, peeks and resets, and anything under other keys: a hit reports the streak including itself since the last reset, a peek the streak so far, or zero once the last window is over, and both report the full key and what is left of the last window |
| `RateLimit.ReportedStreak` | cache/rate_limit.go:18-20 | A hit is reported as exceeded if and only if its limit is positive and its streak has reached it |
| `RateLimit.AtMostLimitMinusOne` | cache/rate_limit.go:18-56 | With fixed positive limit and window, over all histories, every half-open interval of the window's length without a reset of the key holds at most limit - 1 hits under it reported as not exceeded |
| `RateLimitLocks.HitsReportStreaks` | cache/rate_limit.go:37-56 | Over every interleaving of hits and peeks on a key, every hit is answered with the length of the streak that it ends, counted from the last drop of a live counter |
| `RateLimitLocks.PeeksReportStreaks` | cache/rate_limit.go:58-85 | And every peek that finds a counter finds the streak of the hits from the last drop to its look, while the last window is open at its clock reading; it misses exactly if there is none |
| `RateLimitLocks.AtMostLimitMinusOnePerDrop` | cache/rate_limit.go:18-85 | Over every interleaving of hits and peeks on a key: a half-open interval of the window's length holds at most (limit - 1) * (d + 1) hits told they are not exceeded, where d counts the live counters that late deletes drop within it, each written after the look |
| `RateLimitLocks.MoreThanTheLimitAllows` | cache/rate_limit.go:37-85 | A concrete interleaving of one Peek and hits in which a window admits limit hits |
| `Tokens.Service.Issue` | token/token.go:73-105 | Claims, store contents and outcome are those that IssueOutcome describes, with the service's and the store's clock apart |
| `Tokens.Service.Find` | token/token.go:111-129 | Claims, miss, undecodable data or expiry, and the revocation that expiry causes |
| `Tokens.Service.Revoke` | token/token.go:131-137 | The token's entry is gone; a blank token changes nothing |
| `Tokens.IssueOutcome` | token/token.go:73-105 | A token is issued if and only if its subject is not blank and its expiry is still to come, or without one the service has a positive lifetime; refused as invalid if and only if the subject is blank, otherwise as expired. Issued claims keep what the caller gave, with clock and lifetime where it gave nothing, and are stored under the token's digest for that lifetime; a refused call stores nothing |
| `Tokens.FindOutcome` | token/token.go:111-129 | Each outcome of Find if and only if: blank token, nothing live in the store, undecodable data, expired claims, good claims; and what is then in the store |
| `Tokens.DefaultLifetime` | token/token.go:83-88 | A token issued without an expiry expires, by its claims, in (ttl - 1s, ttl] from the clock reading |
| `Tokens.StoreOutlivesClaimsIff` | token/token.go:83-101 | The store keeps an issued token at least until its claims expire if and only if it has a default lifetime or its expiry is at most the longest Duration ahead of the store's clock |
| `Tokens.IssuedIsHonest` | token/token.go:73-105 | Under that condition a freshly issued token starts the life that Lifetime describes |
| `Tokens.Lifetime` | token/token.go:73-137 | Over every sequential run of the service after issue: Find returns the claims if and only if the token has not been revoked and the whole seconds of the clock are below its expiry; no other outcome is a success |
| `TokenLocks.FindsAreRight` | token/token.go:73-137 | The same under every interleaving of the critical sections of Issue, Find and Revoke: a Find returns claims, the issued ones, if and only if the token was stored before its look, no Revoke of a caller lies between, and the whole seconds at its verdict are below the expiry |
| `TokenLocks.IssuesIff` | token/token.go:73-105 | Between other goroutines' steps, too, a call of Issue goes on if and only if the token has a subject and time to live, and then its claims are those asked for |
| `TokenLocks.EveryTokenWasAskedFor` | token/token.go:73-105 | Over every interleaving the claims of every token were asked for by some call of Issue that was entitled to them |
| `TokenLocks.FindsIff` | token/token.go:111-114 | A Find looks at once, or refuses a blank token |
| `TokenLocks.RevokesIff` | token/token.go:131-137 | A Revoke deletes at once, or ignores a blank token |
| `TokenLocks.CallsEnd` | token/token.go:73-137 | Each step brings a call nearer to its end: an Issue ends with its token in the store, a Find with an outcome for its look |
| `Tokens.FarExpiryEndsEarly` | token/token.go:84-101 | Beyond that condition, for every such token, there is a moment when its claims are good and Find misses |
| `Lifecycle.StopBackgrounds` | app/runtime.go:116-136 | Services are stopped and waited for from the last to the first, and all failures are collected |
| `Lifecycle.CloseResources` | app/runtime.go:138-150 | Closers are closed from the last to the first, nil ones skipped, and all failures are collected |
| `Lifecycle.RunHTTP` | app/runtime.go:38-114 | The trace of calls and the joined errors for every outcome of start, serve, signal, shutdown, stop and close |
| `Lifecycle.ExactlyDueCalls` | app/runtime.go:63-150 | A call is made if and only if it is due: everything started (or without Start) is stopped and waited for, every non-nil closer is closed, whatever fails |
| `Lifecycle.CallsInOrder` | app/runtime.go:63-150 | No call is made twice; starts go up, then serving and shutdown, then stops and waits go down, then closes go down |
| `Lifecycle.ErrorIffSomethingFailed` | app/runtime.go:101-113 | Past startup the result is an error if and only if some due call failed |
| `Lifecycle.Container.CollectLifecycle` | di/container.go:225-239 | A component goes once onto the backgrounds if it starts, stops or waits, and onto the closers if it closes |
| `Lifecycle.Container.Register` | di/container.go:31-59 | A taken type is refused and nothing collected; otherwise the value is stored and, if asked for, collected |
| `Lifecycle.Container.Replace` | di/container.go:61-75 | The value is replaced; what was collected for the old one stays |
| `Lifecycle.Container.RegisterName` | di/container.go:121-138 | An empty or taken name is refused and nothing collected |
| `Lifecycle.Container.ReplaceName` | di/container.go:146-156 | An empty name is ignored; what was collected for the old value stays |
| `Lifecycle.Container.AddBackground` | di/container.go:189-196 | A non-nil service is appended |
| `Lifecycle.Container.AddCloser` | di/container.go:198-205 | A non-nil closer is appended |
| `Lifecycle.ListsGrow` | di/container.go:39-205 | What registrations have collected keeps its place on the lists |
| `Lifecycle.TakenIff` | di/container.go:39-156 | A type or a name is taken if and only if an earlier registration has given it a value |
| `Lifecycle.HoldsLatest` | di/container.go:39-156 | What is found under a type or a name is the value of the latest registration of it that was not refused |
| `Lifecycle.OneMoreRegistered` | di/container.go:31-239 | In terms of the registrations before it: whether a registration is refused and why, and exactly what it adds to each of the two lists |
| `Lifecycle.HandedOverIsClosed` | di/container.go:225-239 | A closing component that a registration hands over is closed when the application ends, whatever fails |
| `Lifecycle.HandedOverIsStopped` | di/container.go:225-239 | A background that a registration hands over is started if and only if startup gets there, and stopped and waited for if and only if it was |
| `Lifecycle.LaterIsTakenDownFirst` | di/container.go:189-239 | An application built from any registrations takes down what later ones collected before what earlier ones did, whatever fails on the way |
| `Paths.CleanIdempotent` | storage/path.go:35 | Lexical cleaning is idempotent and keeps the meaning of every path |
| `Paths.HereVanishes` | storage/path.go:35 | Empty and '.' components vanish, whatever is before and behind them |
| `Paths.UpTakesAway` | storage/path.go:35 | A component followed by '..' vanishes with it, whatever is before and behind them |
| `Paths.UpAtEnd` | storage/path.go:35 | The same at the end of a path; a slash at the end makes no difference |
| `Paths.UpAtRoot` | storage/path.go:35 | A '..' at the root vanishes |
| `Paths.PlainIsAdded` | storage/path.go:35 | Any other component stays, at the end of what it is added to |
| `Paths.AcceptedIff` | storage/path.go:32-40 | A path is accepted if and only if, backslashes replaced and one leading slash gone, it is still rooted, or never climbs above its start and ends below it |
| `Paths.AcceptedIsNormal` | storage/path.go:32-40 | What is accepted has, behind at most one slash, no empty, '.' or '..' component |
| `Paths.CleanedAgain` | storage/path.go:32-40 | Cleaning an accepted path again drops the slash that the first cleaning kept, and refuses it if nothing is left |
| `Paths.IdempotentIff` | storage/path.go:32-40 | Cleaning an accepted path again gives it back if and only if it did not begin with two slashes of either kind |
| `Paths.SplitIs` | storage/path.go:42-48 | Splitting a cleaned path separates its first component from the rest, and fails if it is rooted or has only one |
| `Paths.OpenPathContained` | storage/local.go:216-222 | Whatever the root and the object path, what a disk opens is its root followed by normal components if and only if the root is not empty or the path does not begin with two slashes |
| `Paths.EmptyRootEscapes` | storage/local.go:216-222 | A disk without a root directory opens the absolute path "/e" for "//e" |
| `Paths.OpensUnderChosenRoot` | storage/storage.go:242-261 | For every accepted public path and all roots, empty ones included: the named disk's root followed by the other components, else the default disk's root followed by all, else the exact error |

## Left out

- The Redis server and its Lua scripts, and with them the methods of the Redis store: when a key expires there is not decided in this repository.
- TCP, TLS, dialling, deadlines and `net.Conn`: a connection carries some number of bytes each way and then fails. Buffering is not modelled; unread bytes are one sequence.
- `RedisLink.RedisConn.Do`: does not model commands or replies longer than a Go slice can be, and a reply arrives only after the whole command was sent.
- `RespIO.ReadBlobFrom`: does not model memory exhaustion by huge announced lengths, because the model's memory is unbounded, nor the panic on a length whose sum with 2 overflows, which leaves the connection set; it is an ordinary error here. No run with well-formed, aligned replies meets such a length (`RedisLink.NothingUnreadable`). The same holds for `RespIO.ReadItemsFrom` and array lengths.
- `RespIO.WriteCommand`: does not model the widths of unsigned integer arguments, which are naturals of any size here.
- The rendering of other argument types by `fmt.Sprint`: it enters as the bytes it produces.
- Nil receivers, unset handles and nil servers, which return an error at once, and the `Close` methods of the stores.
- The methods of `DatabaseStore.Database` model reads as values: the copy of the scanned slice is not modelled, because the rows of the table are values.
- Real SQL, `Migrate`, collations and key length limits: the table is keyed by the exact key, and a failed commit changes nothing.
- `DatabaseTx.EveryInterleaving`: does not model gap locks, deadlock detection or lock timeouts of MySQL except as statements that fail at any point, waiting or not; MySQL's isolation is that of locking reads and single committed reads; SQLite is one connection with one transaction at a time. The clock stays below the year 2262.
- Fairness: that a client or goroutine that may take its next step eventually does. Given that, calls end (`DatabaseCalls.StepsAdvance`, `DatabaseCalls.NoCircleOfWaiting`, `MemoryCalls.EveryCallEnds`), but one client may be overtaken for ever.
- `MemoryStore.RunRefines`: does not model a clock that yields Go's zero time as a deadline, which stands for "never" in the code; deadlines are optional values instead.
- The `Cache` interface as a type: the fallback and prefix stores wrap one class that is the TTL map with a switch for its backend; that the memory and database stores are such maps is `DatabaseStore.StoresAgree`. A cache that is both primary and fallback of one pair is left out.
- `FallbackStore.FailureGoesUnnoticed`: does not model the clock moving between the calls that one composite operation makes to its two stores, nor a primary that comes back.
- `RateLimit.ClosedForm`: does not model other writers on the counter's key, nor windows that are not positive, which set no deadline. The limiter and the token service are modelled over the memory store.
- `Tokens.Lifetime`: does not model JSON, SHA-256 and randomness: the codec is any pair of functions of which one inverts the other on the claims in question, digests of the tokens in play differ, and a token is issued once. The key's fixed "token:" part is inside the digest.
- `TokenLocks.FindsAreRight`: does not model other users of the store, whose keys do not begin with "token:", nor a clock in the first second of 1970; random tokens are never drawn twice.
- `Tokens.StoreOutlivesClaimsIff`: does not model clocks outside 1970 to 2262 or expiries past the year 292 billion, where Go's internal seconds wrap; nor do `Tokens.IssueOutcome` and the lemmas about issuing.
- `strings.TrimSpace` is modelled on ASCII white space only.
- Contexts, signals and logging in `Lifecycle.RunHTTP`: serving ends by a signal, by itself or with an error. `Stop`, `Wait`, `Close` and `Shutdown` return. Startup errors are returned alone, as in the code, where errors of taking down are only logged.
- `Resolve` and `ResolveName` of the container, its nil receiver, and its lock.
- `Paths.OpenPathContained`: does not model Windows separators, or disks other than local ones, which refuse to open paths. Symbolic links are not lexical.
- `publicURL`, uploads, object names and real file I/O; `config`, `convert`, `logger`, `cli`, `migration`, `gormdb`, `database`, `response` and templates, which are plumbing over libraries.
