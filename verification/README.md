# Verified model of the runtime's small algorithms

This project models the stateful algorithms under the runtime, one module for each source file or
component, and proves what they promise. Code that works by changing things in place is modelled by
classes and methods with loops; each method is proved against a specification function, and the
properties that span operations or whole runs are lemmas about those functions.

- **Inflate** (`Bits`, `Canonical`, `HuffmanTable`, `Deflate`, `Zlib`, `Encoding`). `Deflate` is a
  reference decoder for RFC 1951 that reads one bit at a time and has no tables. `Zlib.ZBuf` is
  the decoder as it is written: a 32-bit bit buffer refilled by bytes, a nine-bit fast table with
  a slow path over preshifted bounds, a growing output buffer. `Zlib.ZlibDecode` states that what
  the second returns is what the first produces. `Encoding` is the format from the writer's side,
  for any blocks, codes and symbols; `Encoding.RoundTrip` states that the decoder inverts it. The
  reference decoder may run for ever on a stream padded with zeros, so its outcome is a limit over
  any amount of fuel.
- **Interlaced PNG** (`Adam7`). The seven passes and the flat output buffer.
- **Wait and wake on an address** (`SyncOnAddress`). The portable protocol with a registry lock and
  one lock for each entry, as a state machine whose steps are the regions between lock operations;
  a waiter may wake at any time. `Next` also lets other threads store to memory and time pass.
- **Kernel event flag** (`EventFlag`). One step is one region in which the mutex is held. The log of
  bit changes is history that the properties of a run speak about.
- **Kernel event queue** (`EventQueue`). The list of events with pending queues, timers and the two
  trigger functions; `ExecAll` is a run of operations.
- **Bit array, LRU list, slots** (`BitArray`, `LruCache`, `SlotVector`). Each fast structure against
  a set of bits, a list of entries ordered by use, and a map from ids to values.
- **Calendar dates** (`DateTime`). Day numbers by floor division, against the calendar's own rule
  for the day after.
- **Directory records** (`Dirents`). The packer and the reader, against a parser that walks records
  by their lengths.

Integers are unbounded. Where the source's width matters it is written out: `Low` and the word
type of `BitArray` for shifted words, `Wrap` in `Adam7`, the generation cycle of `SlotVector`,
the overflow predicates of `DateTime`, the 64-bit sum of `EventQueue.SleepMicros`, and the
32-bit sizes of `ZBuf.Expand`. Shifts and masks are defined bit by bit on natural numbers, so
that proofs about them are linear; `Division` holds the facts about quotients and remainders
that the other modules share.

`dafny verify dfyconfig.toml` checks the whole project.

## Model

| member | source | states |
|---|---|---|
| Bits.BitReverse16Correct | 3rdparty/stb/stb_image.h:4050-4057 | The four swap stages with their masks return the sixteen low bits in the opposite order, for every integer, also one with bits above the sixteenth. |
| Bits.BitReverseCorrect | 3rdparty/stb/stb_image.h:4059-4065 | Reversing sixteen bits and shifting the excess away is reversal of a number of up to sixteen bits. |
| Bits.ReverseField | 3rdparty/stb/stb_image.h:4101-4106 | A code written most significant bit first is the reversal of the field that the least-significant-bit-first buffer holds: why table slots are indexed by reversed codes. |
| Bits.FieldSplit | 3rdparty/stb/stb_image.h:4160-4162 | The mask and the shift of a read take a buffered field apart into exactly its first bits and the rest. |
| Bits.TopBits | 3rdparty/stb/stb_image.h:4170-4171 | The slow path sees the next sixteen bits of the stream with the first one on top. |
| Canonical.PrefixFree | 3rdparty/stb/stb_image.h:4080-4092 | The codes assigned by section 3.2.2 of RFC 1951 are distinct and none is a prefix of another. |
| Canonical.FitsIffKraft | 3rdparty/stb/stb_image.h:4080-4092 | The per-length room test holds exactly when the Kraft sum of the lengths is at most one. |
| Canonical.Covered | 3rdparty/stb/stb_image.h:4172-4178 | Every value below the end of the codes of a length begins with some code of that length or less: what makes the preshifted bound a correct test. |
| Canonical.DecodeSymbolExact | 3rdparty/stb/stb_image.h:4185-4202 | The bit-by-bit reference decoder returns a symbol exactly when the stream begins with its code, with exactly its length. |
| Canonical.MatchUnique | 3rdparty/stb/stb_image.h:4185-4202 | At most one symbol has a code that the stream begins with. |
| Canonical.PositionInjective | 3rdparty/stb/stb_image.h:4094-4100 | No two symbols get the same place in the tables sorted by code. |
| HuffmanTable.HitIsMatch | 3rdparty/stb/stb_image.h:4101-4107 | A fast-table slot belongs to a symbol exactly when the buffered bits that index it begin with that symbol's code. |
| HuffmanTable.HitUnique | 3rdparty/stb/stb_image.h:4101-4107 | No two symbols compete for a slot. |
| HuffmanTable.ZHuffman.Build | 3rdparty/stb/stb_image.h:4067-4112 | Accepts exactly the length lists whose codes fit; then every table (fast slots, first codes, preshifted bounds, sorted sizes and values) is the one of the canonical codes. |
| HuffmanTable.ZHuffman.FillFast | 3rdparty/stb/stb_image.h:4101-4107 | The strided loop writes exactly the slots whose low bits are the reversed code, and no others. |
| HuffmanTable.ZHuffman.FastFound | 3rdparty/stb/stb_image.h:4194-4199 | A nonzero slot gives the symbol the reference decoder finds, and its length. |
| HuffmanTable.ZHuffman.FastMissed | 3rdparty/stb/stb_image.h:4194-4201 | A zero slot means that no code of nine bits or less matches. |
| HuffmanTable.ZHuffman.SlowFound | 3rdparty/stb/stb_image.h:4171-4182 | The first length whose preshifted bound exceeds the next sixteen bits is the length of the matching code, and the table entry is its symbol. |
| HuffmanTable.ZHuffman.NothingFound | 3rdparty/stb/stb_image.h:4172-4175 | When every bound is passed, no code matches. |
| Deflate.LimitStep | 3rdparty/stb/stb_image.h:4404-4430 | The reference decoder for a whole stream takes one block and goes on from there, without a bound on the number of blocks. |
| Deflate.RunDeterministic | 3rdparty/stb/stb_image.h:4243-4279 | Any two amounts of fuel that suffice give the same outcome, so the limit is well defined. |
| Deflate.SymbolForward | 3rdparty/stb/stb_image.h:4243-4279 | A symbol of the reference decoder takes at least one bit and never takes output back. |
| Deflate.InflateForward | 3rdparty/stb/stb_image.h:4404-4430 | The reference decoder never moves back in the input, whatever the stream. |
| Deflate.CopyPeriod | 3rdparty/stb/stb_image.h:4271-4277 | A match keeps the output and adds exactly its length in bytes, each of them equal to the byte `dist` before it, whether that one was there before or was itself copied. |
| Zlib.ZBuf.Get8 | 3rdparty/stb/stb_image.h:4139-4142 | Returns the next byte of the input, or zero past its end. |
| Zlib.ZBuf.FillBits | 3rdparty/stb/stb_image.h:4144-4154 | Refills the buffer to more than 24 bits of the zero-padded stream without moving the read position; the sanity test in the source never fires. |
| Zlib.ZBuf.Receive | 3rdparty/stb/stb_image.h:4156-4164 | Returns exactly the next n bits and moves past them. |
| Zlib.ZBuf.DecodeHuffman | 3rdparty/stb/stb_image.h:4185-4202 | Returns the symbol that the bit-by-bit decoder finds at the read position and consumes exactly its code, or -1 when no code matches or the input has run out. |
| Zlib.ZBuf.DecodeSlow | 3rdparty/stb/stb_image.h:4166-4183 | The slow path agrees with the reference decoder whenever the fast table misses. |
| Zlib.ZBuf.Expand | 3rdparty/stb/stb_image.h:4204-4224 | Doubling keeps the bytes written so far and makes room for n more; it fails only for a fixed buffer, a need past half of the 32-bit range or a refused reallocation. The doubling loop of the source never ends exactly for an expandable buffer of size zero that needs a byte; that is reported as a failure of its own. |
| Zlib.ZBuf.CopyMatch | 3rdparty/stb/stb_image.h:4271-4277 | Both the one-byte shortcut and the byte loop produce the overlapping copy of the reference decoder. |
| Zlib.ZBuf.RepeatLast | 3rdparty/stb/stb_image.h:4272-4274 | The one-byte shortcut is the copy at distance 1. |
| Zlib.ZBuf.ReceiveMatch | 3rdparty/stb/stb_image.h:4259-4265 | Reads length, distance symbol and extra bits as section 3.2.5 of RFC 1951 lays them out. |
| Zlib.ZBuf.DecodeMatch | 3rdparty/stb/stb_image.h:4254-4277 | One match: reads it, refuses a distance beyond the output, grows the buffer if needed and copies; the outcome is the reference decoder's. |
| Zlib.ZBuf.DecodeOne | 3rdparty/stb/stb_image.h:4243-4279 | One round of the symbol loop agrees with one step of the reference decoder. |
| Zlib.ZBuf.ParseHuffmanBlock | 3rdparty/stb/stb_image.h:4240-4280 | A compressed block: success means the output and position of the reference decoder, a format error means that it finds one too, and every other failure is excused by where the reference decoder would end. Without undefined symbols the loop ends by itself: more than UINT_MAX rounds are spent only on a block that uses one. |
| Zlib.ZBuf.NextSymbol | 3rdparty/stb/stb_image.h:4243-4279 | One round of the symbol loop advances the reference decoder by one symbol, and by at least one bit; stopping is excused by what stopped it. |
| Zlib.ZBuf.ReceiveLens | 3rdparty/stb/stb_image.h:4304-4324 | One code length instruction (a length, or a repeat by symbol 16, 17 or 18) appends what section 3.2.7 of RFC 1951 says, with the same refusals. |
| Zlib.ZBuf.ComputeHuffmanCodes | 3rdparty/stb/stb_image.h:4282-4330 | A dynamic block header: the two tables built are those of the lengths that the reference decoder reads, and it is refused only when that decoder refuses it, the input ends, or a code does not fit. |
| Zlib.ZBuf.ReceiveMeta | 3rdparty/stb/stb_image.h:4284-4299 | The lengths read in the order of the static table are those that section 3.2.7 of RFC 1951 gives to each symbol by its place: symbols 16, 17, 18 and 0 first, then 8, 7, 9, 6 and so on; a length that is not sent is zero. |
| Zlib.Dezigzag | 3rdparty/stb/stb_image.h:4284 | The i-th entry of the static order table is the one symbol whose place, by the rule of section 3.2.7, is i. |
| Zlib.DefaultTables | 3rdparty/stb/stb_image.h:4375-4402 | The static tables of the fixed codes are the lengths of section 3.2.6 of RFC 1951. |
| Zlib.ZBuf.ParseUncompressedBlock | 3rdparty/stb/stb_image.h:4332-4359 | A stored block: alignment, draining of the bit buffer, length check and copy give the bytes of the reference decoder. |
| Zlib.ZBuf.ParseBlock | 3rdparty/stb/stb_image.h:4412-4427 | One block of any kind agrees with the reference decoder, including the refusal of block type 3. |
| Zlib.ZBuf.NextBlock | 3rdparty/stb/stb_image.h:4411-4428 | One round of the block loop advances the reference decoder by one block. |
| Zlib.ZBuf.ParseZlib | 3rdparty/stb/stb_image.h:4404-4430 | A run that succeeds leaves exactly the output of the reference decoder; a format error means the stream is corrupt, or uses a symbol that RFC 1951 leaves undefined; every other failure is excused by where the reference decoder would end. A budget above UINT_MAX and above the bits of the input is spent only on a stream with an undefined symbol. |
| Zlib.ZBuf.ParseZlibHeader | 3rdparty/stb/stb_image.h:4361-4373 | Accepts exactly the headers that pass the check of section 2.2 of RFC 1950 without a preset dictionary and are followed by data. |
| Zlib.ZlibDecode | 3rdparty/stb/stb_image.h:4442-4456 | Whatever the decoder returns is what the bit-by-bit reference decoder produces from the bytes after the header, unless the stream uses a symbol left undefined. Conversely, every stream that the reference decoder accepts is decoded, if two bytes follow it (the zlib format appends four), memory is granted, the first buffer is not empty and the budget covers its bits. On streams without undefined symbols both loops end within a budget that depends on the sizes only. |
| Encoding.LengthCoded | 3rdparty/stb/stb_image.h:4226-4232 | Every length from 3 to 258 has a symbol and extra bits, found by halving, whose base and extra bits add up to it. |
| Encoding.DistCoded | 3rdparty/stb/stb_image.h:4234-4238 | The same for every distance from 1 to 32768. |
| Encoding.FixedCodesAre | 3rdparty/stb/stb_image.h:4375-4390 | The canonical codes of the fixed lengths are the code words that the table of section 3.2.6 of RFC 1951 lists. |
| Encoding.TokensRead | 3rdparty/stb/stb_image.h:4240-4280 | For any usable codes, a block written symbol by symbol (literals, and copies with any length and distance) is decoded to the text that its symbols describe, and the position after it. |
| Encoding.MetaRead | 3rdparty/stb/stb_image.h:4296-4299 | Lengths of the code length code written in the listed order are read back symbol by symbol. |
| Encoding.HeaderRead | 3rdparty/stb/stb_image.h:4282-4330 | A dynamic block header written with any repeat instructions is read back to exactly the two lists of code lengths it was written for. |
| Encoding.StoredRead | 3rdparty/stb/stb_image.h:4332-4359 | A stored block written at any bit position is read back to its bytes. |
| Encoding.StreamRead | 3rdparty/stb/stb_image.h:4404-4430 | The reference decoder inverts the writing of a stream: for any blocks of the three kinds, with any codes and symbols, it gives their text and the position after the last one. |
| Encoding.RoundTrip | 3rdparty/stb/stb_image.h:4442-4456 | Decoding a zlib stream packed into bytes from any blocks returns their text: the decoder as it is written inverts the format. |
| Encoding.EveryTextWritable | 3rdparty/stb/stb_image.h:4442-4456 | Every text, of any size, can be written as such a stream. |
| Zlib.FixedCodesFit | 3rdparty/stb/stb_image.h:4375-4390 | The fixed length lists fit, so building their tables never fails. |
| Zlib.LengthTables | 3rdparty/stb/stb_image.h:4226-4232 | The static length tables are the arithmetic of section 3.2.5 of RFC 1951 at all 29 defined symbols. |
| Zlib.DistTables | 3rdparty/stb/stb_image.h:4234-4238 | The static distance tables are the arithmetic of section 3.2.5 of RFC 1951 at all 30 defined symbols. |
| Adam7.PassSizeExact | 3rdparty/stb/stb_image.h:4824-4825 | The unsigned pass size is the number of columns (or rows) the pass has exactly when size plus step fits 32 bits. |
| Adam7.OnePass | 3rdparty/stb/stb_image.h:4832-4836 | A pixel placed by a pass is one that the 8 by 8 pattern of section 8.2 of the PNG specification gives to that pass, and its place in the pass is determined. |
| Adam7.PlaceOf | 3rdparty/stb/stb_image.h:4830-4837 | Every pixel of the image has a place inside the pass that the pattern names. |
| Adam7.PixelOf | 3rdparty/stb/stb_image.h:4830-4837 | Every place of a pass is a pixel of the image, so nothing is written outside it. |
| Adam7.AtApart | 3rdparty/stb/stb_image.h:4834-4836 | Different pixels have different places in the flat output buffer. |
| Adam7.PlaceRow | 3rdparty/stb/stb_image.h:4831-4837 | A row of a pass writes exactly its pixels, each from its column of the pass to its column and row of the image in row-by-row buffers, and keeps every other pixel. |
| Adam7.PlacePass | 3rdparty/stb/stb_image.h:4830-4838 | A pass writes exactly the pixels that the pattern gives to it. |
| Adam7.Deinterlace | 3rdparty/stb/stb_image.h:4818-4847 | The pixel in column x and row y of the image, at y * w + x, is the one that the pass the pattern names has in its own row and column, for all x and y; the image fails exactly when some non-empty pass does. |
| SyncOnAddress.WaitSliceMeaning | src/kernel/syncOnAddress.cpp:61-74 | The slice of a wait is at least one microsecond unless the deadline has passed, at most the polling period, and overshoots the deadline by less than the rounding. |
| SyncOnAddress.FlagExact | src/kernel/syncOnAddress.cpp:238-247 | The wake loop flags exactly min(n, unflagged) distinct waiters, and all of them for INT_MAX. |
| SyncOnAddress.FlagAll | src/kernel/syncOnAddress.cpp:238-247 | A wake of everyone leaves no waiter of the list unflagged. |
| SyncOnAddress.FlagInOrder | src/kernel/syncOnAddress.cpp:238-247 | Waiters are flagged in the order in which they registered. |
| SyncOnAddress.StepInv | src/kernel/syncOnAddress.cpp:155-250 | Every lock-held region of every call keeps the invariant: who holds which lock, which list holds which waiter, which entry the registry holds, which results are justified. |
| SyncOnAddress.RunInv | src/kernel/syncOnAddress.cpp:155-250 | The invariant holds in every state of every interleaving. |
| SyncOnAddress.OneEntryInUse | src/kernel/syncOnAddress.cpp:155-186 | In every run, two entries for one address never both have waiters, and an entry with a waiter is the one the registry holds. |
| SyncOnAddress.ReturnedLeavesNothing | src/kernel/syncOnAddress.cpp:168-222 | In every run, a call that has returned is in no waiter list and holds no lock. |
| SyncOnAddress.LockOrder | src/kernel/syncOnAddress.cpp:173-186 | In every run, a call that needs the registry lock holds no entry lock. |
| SyncOnAddress.NoDeadlock | src/kernel/syncOnAddress.cpp:155-250 | In every run, while some call has not returned, some call can take a step. |
| SyncOnAddress.FlaggedReturnsOk | src/kernel/syncOnAddress.cpp:196-221 | In every run, a flagged waiter returns OK and never ETIMEDOUT. |
| SyncOnAddress.CheckDecides | src/kernel/syncOnAddress.cpp:196-206 | The test of the wait loop returns OK exactly for a changed word or a flag, times out exactly for a passed deadline without them, and otherwise sleeps and gives the lock back: a flagged call never sleeps. |
| SyncOnAddress.RecheckDecides | src/kernel/syncOnAddress.cpp:212-217 | The test after polling times out exactly when the deadline has passed, the word is unchanged and there is no flag. |
| SyncOnAddress.FlaggedLeaves | src/kernel/syncOnAddress.cpp:196-219 | A flagged call leaves its loop with OK within five of its own steps. |
| SyncOnAddress.ResultJustified | src/kernel/syncOnAddress.cpp:194-222 | In every run, each result goes back to an earlier state in which the call looked: ETIMEDOUT to one with the deadline passed, the word unchanged and no flag, OK to one with the word changed or the flag set. |
| SyncOnAddress.RegistryEmpties | src/kernel/syncOnAddress.cpp:168-186 | In every run, when every call has returned the registry is empty: no entry is left behind, however the erasures interleave. |
| SyncOnAddress.WakeAllMissesNobody | src/kernel/syncOnAddress.cpp:224-250 | In every run, each call registered on an address when a wake of everyone takes effect there is flagged from then on, in whatever entry it registered. |
| SyncOnAddress.StoreThenWakeAll | src/kernel/syncOnAddress.cpp:188-250 | In every run, after a store of another value and then a wake of everyone, and as long as the word stays, each call that waits for the old value is flagged, or has yet to look at the word, or has left its loop: none sleeps through both. |
| SyncOnAddress.WakeReachesExactly | src/kernel/syncOnAddress.cpp:224-250 | In every run, the step with which a wake of n returns, with an entry or without, flags exactly min(n, unflagged) of the calls registered on its address. |
| SyncOnAddress.PortableAddresses.RegisterWaiter | src/kernel/syncOnAddress.cpp:155-166 | The entry of the address, or a new one, gets the waiter at the end of its list, and no other list changes. |
| SyncOnAddress.PortableAddresses.RemoveWaiter | src/kernel/syncOnAddress.cpp:171-176 | The waiter leaves its list; the result says whether the list is empty. |
| SyncOnAddress.PortableAddresses.EraseEntry | src/kernel/syncOnAddress.cpp:178-185 | The entry is erased exactly when the registry still holds it and it is still empty. |
| SyncOnAddress.PortableAddresses.WakeWaiters | src/kernel/syncOnAddress.cpp:238-247 | The loop over the list sets the flags of the specification function, for any count. |
| EventFlag.KernelEventFlag.TestRegion | src/kernel/eventFlag.cpp:127-178 | Bit by bit: returns OK, with the bits from before any are cleared, exactly when the flag has all of the bits waited for, or one of them; then exactly the bits to clear are cleared. Otherwise it times out exactly when the time is up, and counts itself and sleeps if not. |
| EventFlag.KernelEventFlag.EnterRegion | src/kernel/eventFlag.cpp:123-144 | A wait from its start: refused exactly when a single-thread flag has a waiter, and the test otherwise. |
| EventFlag.KernelEventFlag.WakeRegion | src/kernel/eventFlag.cpp:145-164 | A wait from a wakeup: the counter drops, a canceled or deleted flag ends it with that result, and otherwise it tests again. |
| EventFlag.KernelEventFlag.SetRegion | src/kernel/eventFlag.cpp:185-193 | While the status is Set, exactly the given bits are added; until then nothing changes and it tries again. |
| EventFlag.KernelEventFlag.ClearRegion | src/kernel/eventFlag.cpp:201-207 | While the status is Set, exactly the given bits are kept; until then nothing changes. |
| EventFlag.KernelEventFlag.CancelRegion | src/kernel/eventFlag.cpp:210-230 | Cancel reports the number of waiters and switches the status in one region. |
| EventFlag.KernelEventFlag.DrainRegion | src/kernel/eventFlag.cpp:230-236 | The drain ends exactly when no waiter is left. |
| EventFlag.WaitStep | src/kernel/eventFlag.cpp:123-178 | A step of a wait that starts, or wakes with the status Set, returns, times out or sleeps as the test of its bits says. |
| EventFlag.ChangeStep | src/kernel/eventFlag.cpp:180-237 | The steps of Set, Clear and Cancel change the bits exactly as called, and a Cancel reports the waiters and drains if there are any. |
| EventFlag.StepInv | src/kernel/eventFlag.cpp:81-237 | Every mutex-held region keeps the invariant: the counter counts the sleepers, one cancel drains at a time, the log of bit changes is a chain, and the waits in the log are exactly the calls that returned OK, each once. |
| EventFlag.RunInv | src/kernel/eventFlag.cpp:81-237 | The invariant holds in every state of every interleaving. |
| EventFlag.CancelReachesSleepers | src/kernel/eventFlag.cpp:147-163 | In every run, all threads asleep when a cancel switches the status are told Canceled before that cancel returns, and it reports exactly how many they were. |
| EventFlag.ToldIsFinal | src/kernel/eventFlag.cpp:147-163 | In every run, what a wait returned never changes afterwards. |
| EventFlag.CancelsNeverOverlap | src/kernel/eventFlag.cpp:210-237 | In every run, two cancels never drain at once. |
| EventFlag.NextKeepsFields | src/kernel/eventFlag.cpp:180-208 | Deleted is never left, and while the status is not Set no Set or Clear changes the bits. |
| EventFlag.DeletedForever | src/kernel/eventFlag.cpp:81-99 | In every run, a deleted flag stays deleted. |
| EventFlag.SingleThread | src/kernel/eventFlag.cpp:123-125 | In every run, a single-thread flag never has two sleepers. |
| EventFlag.OkSawCondition | src/kernel/eventFlag.cpp:127-178 | In every run, the bits that an OK wait reported had all of the bits it waited for, or one of them, and they are the bits from before it cleared any. |
| EventFlag.SuppliedBetween | src/kernel/eventFlag.cpp:166-194 | In every run, of two waits that returned OK, the first of which cleared bit b and the second of which needed it: a Set or Cancel supplied b after the first took it and before the second did. So one Set never satisfies two clearing waits, even with equal arguments. |
| EventFlag.ClearedBit | src/kernel/eventFlag.cpp:171-175 | An OK wait leaves exactly the bits that were set and that it does not clear: all of them for the clear-all mode, those it waited for in the clear-pattern mode. |
| EventQueue.KernelEqueue.AddEvent | src/kernel/eventQueue.cpp:212-234 | A new event is appended; a known one gets the new deadline and the new user data, also in each of its pending events, and keeps all else, as do the other events. |
| EventQueue.KernelEqueue.TriggerEvent | src/kernel/eventQueue.cpp:236-288 | The one event with that key is triggered: a user event with the given value as data and user data, an AMPR event with it or with a pending copy, any other with nothing else changed; the other events stay. ENOENT exactly when there is no such event. |
| EventQueue.UserDelivered | src/kernel/eventQueue.cpp:96-141 | A user event triggered with a value is delivered with it, as data and user data, by the next collection that has room for it. |
| EventQueue.KernelEqueue.DeleteEvent | src/kernel/eventQueue.cpp:290-313 | Removes the one event with that key, or reports that there is none. |
| EventQueue.KernelEqueue.Close | src/kernel/eventQueue.cpp:74-89 | Closes once and for all and drops every event. |
| EventQueue.KernelEqueue.TriggerExpiredTimers | src/kernel/eventQueue.cpp:143-149 | Exactly the untriggered entries whose deadline has passed become triggered. |
| EventQueue.KernelEqueue.DrainEntry | src/kernel/eventQueue.cpp:109-133 | The inner loop delivers and leaves what the specification of draining one entry says, for any room. |
| EventQueue.KernelEqueue.GetTriggeredEvents | src/kernel/eventQueue.cpp:96-141 | The two nested loops deliver and leave what the specification of collecting says: no more than the room, only for events triggered or due, and every one of these unless the room is used up. |
| EventQueue.KernelEqueue.GetNextTimerWaitMicros | src/kernel/eventQueue.cpp:151-168 | There is a sleep exactly when some timer is armed, and it is that of the nearest armed deadline, in the 64-bit arithmetic of the source. |
| EventQueue.SleepIsCeiling | src/kernel/eventQueue.cpp:162-167 | The sleep is the microsecond ceiling of the time left, at least 1 and at most UINT32_MAX, exactly when the 64-bit sum does not wrap, which is a deadline at most UINT64_MAX - 999 ns away; beyond that it is one microsecond. |
| EventQueue.TimerDeadline | src/kernel/eventQueue.cpp:516-532 | The arguments are accepted exactly when the delay fits 64 bits, and the deadline is the sum or saturates. |
| EventQueue.ExecSound | src/kernel/eventQueue.cpp:96-313 | Every operation keeps the (ident, filter) keys unique and pending events only under a triggered entry. |
| EventQueue.DrainOwed | src/kernel/eventQueue.cpp:109-133 | Draining an AMPR entry delivers the front of what it owes and keeps the rest, for any room. |
| EventQueue.ExecAmpr | src/kernel/eventQueue.cpp:96-313 | One operation: what an AMPR entry owed, then what was triggered, is what was delivered, then what it still owes. |
| EventQueue.AmprExactlyOnce | src/kernel/eventQueue.cpp:96-313 | Over any run of triggers, re-adds and collections of any size, data delivered and data still owed together are the triggers since the event was added: each once, in order. |
| EventQueue.ExecTimer | src/kernel/eventQueue.cpp:96-149 | An operation delivers a timer after its deadline and removes it, deletes it, or leaves it as it is. |
| EventQueue.TimerDelivered | src/kernel/eventQueue.cpp:96-149 | A timer past its deadline is delivered, exactly once, and removed by the next collection that has room for it. |
| EventQueue.DrainOnce | src/kernel/eventQueue.cpp:109-131 | A delivered one-shot event is gone; a delivered event with EV_CLEAR and nothing pending is untriggered, with its flags and data cleared, and waits for its next trigger. |
| EventQueue.CollectDelivers | src/kernel/eventQueue.cpp:106-138 | A triggered event is the next to be delivered after those before it in the list, when they leave room. |
| EventQueue.TimerAtMostOnce | src/kernel/eventQueue.cpp:96-149 | Over any run, also one that deletes it, a timer not re-added or triggered by hand is delivered at most once, and not at all before its deadline. |
| EventQueue.ExecAbsent | src/kernel/eventQueue.cpp:96-313 | A key that is in no entry is not delivered, and stays out until it is added. |
| EventQueue.LevelFillsRoom | src/kernel/eventQueue.cpp:109-133 | A triggered event without EV_CLEAR is repeated until the caller's array is full: the reason exactly-once is claimed for AMPR and one-shot events only. |
| EventQueue.CollectAt | src/kernel/eventQueue.cpp:106-138 | A collection touches each entry by draining it at most once, and delivers nothing else under its key. |
| EventQueue.AddedEntries | src/kernel/eventQueue.cpp:516-566 | A newly added AMPR event owes nothing, and a newly added timer has not fired. |
| BitArray.SetRangeBits | src/common/bitArray.h:100-117 | The masks and inner words of a range update set exactly the bits from start to end, wherever the word boundaries are. |
| BitArray.UnsetRangeBits | src/common/bitArray.h:125-142 | The same for clearing. |
| BitArray.WindowBits | src/common/bitArray.h:63-80 | The same for the window copy. |
| BitArray.BitArray.Get | src/common/bitArray.h:83-85 | Returns the bit. |
| BitArray.BitArray.Set | src/common/bitArray.h:87-89 | Changes that bit only. |
| BitArray.BitArray.Unset | src/common/bitArray.h:91-93 | Changes that bit only. |
| BitArray.BitArray.SetRange | src/common/bitArray.h:95-118 | For every start and end: sets exactly the bits of the range and no others, and does nothing when it is empty or exceeds the array. |
| BitArray.BitArray.UnsetRange | src/common/bitArray.h:120-143 | For every start and end: clears exactly the bits of the range and no others, and does nothing when it is empty or exceeds the array. |
| BitArray.BitArray.Window | src/common/bitArray.h:58-81 | Keeps exactly the bits of the range; every other bit is clear. |
| BitArray.BitArray.FirstRangeFrom | src/common/bitArray.h:158-186 | The nearest run of set bits at or after the start, across any number of words, or (N, N) when there is none. |
| BitArray.BitArray.LastRangeFrom | src/common/bitArray.h:192-224 | The nearest run of set bits before the bound, across any number of words, or (0, 0) when there is none. |
| BitArray.Iterator.Advance | src/common/bitArray.h:35-38 | The iterator moves to the first run from the end of the one it is at. |
| BitArray.Ranges | src/common/bitArray.h:230-231 | Iterating yields ascending, disjoint, maximal runs whose union is exactly the set bits. |
| BitArray.RunsUnique | src/common/bitArray.h:230-231 | There is only one list of runs with those properties. |
| LruCache.LeastRecentlyUsedCache.Detach | src/common/lruCache.h:95-108 | The item leaves the doubly linked list; all other links stay those of the shorter list. |
| LruCache.LeastRecentlyUsedCache.Attach | src/common/lruCache.h:81-93 | The item joins the list at its end, into an empty list too. |
| LruCache.LeastRecentlyUsedCache.Build | src/common/lruCache.h:70-79 | A freed id is used again, first freed first, before a new item is made. |
| LruCache.LeastRecentlyUsedCache.Insert | src/common/lruCache.h:21-28 | The new entry is the last one and all others stay; its id is the one freed first, or a new one; the list stays one acyclic doubly linked list of exactly the live items. |
| LruCache.LeastRecentlyUsedCache.Touch | src/common/lruCache.h:30-40 | Moves the item to the end with its new tick, unless the tick is not newer. |
| LruCache.LeastRecentlyUsedCache.Free | src/common/lruCache.h:42-48 | Takes the item out of the list and queues its id for reuse. |
| LruCache.LeastRecentlyUsedCache.ForEachItemBelow | src/common/lruCache.h:50-67 | The walk along the pointers hands over what the specification of a traversal says, and leaves the cache in the state of the traversal operation, even when the callback frees the item it was given. |
| LruCache.WalkSplits | src/common/lruCache.h:50-67 | A traversal only takes entries out: the others stay in order, and the ids freed are those of the entries gone, each once. |
| LruCache.LeastRecentlyUsedCache.StateSplits | src/common/lruCache.h:112-115 | Every id is live once or free once. |
| LruCache.NextSplits | src/common/lruCache.h:21-67 | Every operation, traversals included, keeps live and free ids apart and without repeats. |
| LruCache.InsertSorted | src/common/lruCache.h:21-28 | An insertion keeps the tick order exactly when its tick is not older than any live one. |
| LruCache.TouchSorted | src/common/lruCache.h:30-40 | A touch keeps the tick order exactly when it changes nothing or its tick is not older than any live one. |
| LruCache.RunOrdered | src/common/lruCache.h:21-67 | Over any run of insertions, uses, removals and traversals whose ticks never decrease, the live items are ordered by the tick of their last use. |
| LruCache.DueExact | src/common/lruCache.h:52-55 | In an ordered list the first items are exactly those not newer than the tick. |
| LruCache.WalkExact | src/common/lruCache.h:50-67 | A traversal hands over the due items, oldest first, up to the one the callback stops at, and exactly those of them that the callback frees are gone. |
| SlotVector.NextValid | src/common/slotVector.h:63-89 | Every operation keeps the free list exactly the empty slots without repeats, and generations in step with the erasures. |
| SlotVector.InsertResolves | src/common/slotVector.h:63-78 | An insertion adds one id that resolved to nothing before; every other id resolves as before. |
| SlotVector.EraseResolves | src/common/slotVector.h:80-89 | An erasure removes its id and changes no other. |
| SlotVector.IdsExact | src/common/slotVector.h:58-89 | Over any run, an id resolves to its own value until its slot is erased, and afterwards exactly when the slot is in use after a multiple of 2^32 - 1 erasures. |
| SlotVector.NextGenerationIs | src/common/slotVector.h:84-86 | The increment that skips 0 is the next generation of the cycle. |
| SlotVector.InsertLost | src/common/slotVector.h:63-78 | Once the indices below 2^32 - 1 are used up and none is free, an insertion adds no id: every id resolves as before, and the value cannot be reached. |
| SlotVector.SlotVector.Insert | src/common/slotVector.h:63-78 | The slots, the free list and the size are those of the specification; the size is the live count. A fresh id that resolves to the value is returned exactly while there is room. |
| SlotVector.SlotVector.Erase | src/common/slotVector.h:80-89 | The id stops resolving, its slot is the last of the free list, and slots, generations and size are those of the specification. |
| DateTime.FloorDivIsFloor | src/common/dateTime.cpp:11-22 | Rounds toward minus infinity for every sign of either operand. |
| DateTime.DateRoundTrip | src/common/dateTime.cpp:24-65 | Every valid date, also before year 1, comes back from its day number. |
| DateTime.JdRoundTrip | src/common/dateTime.cpp:24-65 | Every day number decodes to a valid date whose day number it is. |
| DateTime.NextDay | src/common/dateTime.cpp:40-65 | The next day number is the next day of the calendar under DaysInMonth and IsLeapYear, with no year 0. |
| DateTime.DaysAdded | src/common/dateTime.cpp:24-65 | Adding n to a day number is taking the next day n times. |
| DateTime.Epoch | src/common/dateTime.cpp:24-65 | Two known days, which with the next-day law fix the whole calendar. |
| DateTime.WeekRunsOn | src/common/dateTime.cpp:209-219 | The day of the week advances with every day number, across zero and the negative ones. |
| DateTime.DayOfYearCounts | src/common/dateTime.cpp:221-230 | The day of the year is the days of the months before plus the day. |
| DateTime.YearRunsOn | src/common/dateTime.cpp:221-234 | The day of the year runs from 1 to the length of the year and starts over. |
| DateTime.JdWindow | src/common/dateTime.cpp:40-65 | No step of decoding overflows jd_t exactly for the day numbers from -536866432 to 536838867. |
| DateTime.YmdWindow | src/common/dateTime.cpp:24-38 | No step of encoding a valid date overflows exactly from 14 May 5884291 BC to 15 December 5874689. |
| DateTime.WindowYears | src/common/dateTime.cpp:24-65 | In the window of decoding, encoding the date overflows nowhere either. |
| DateTime.NeverInvalid | src/common/dateTime.cpp:136-142 | No date whose encoding fits gets the number that stands for the invalid date. |
| DateTime.Date.Set | src/common/dateTime.cpp:136-142 | A valid date is stored so that it decodes to itself, any other one as invalid. |
| DateTime.Date.Get | src/common/dateTime.cpp:144-158 | Returns zeros for the invalid date and the one date of the day number otherwise. |
| Dirents.AlignDownIs | src/kernel/fileSystem.cpp:116-122 | The mask arithmetic rounds down to the alignment. |
| Dirents.RecordLengthIs | src/kernel/fileSystem.cpp:131 | The length of a record is the least multiple of 4 with room for its header, name and terminator, and at most 267. |
| Dirents.PackDirents | src/kernel/fileSystem.cpp:124-155 | The packed bytes are whole 512-byte blocks; walking each block on its own by record length gives back exactly the entries, in order, so no record crosses a block and the lengths tile it; a new block begins only when the record does not fit the one before; names longer than 255 are refused. |
| Dirents.Closes | src/kernel/fileSystem.cpp:133-138 | Lengthening the last record by the rest of its block makes the block parse on its own. |
| Dirents.WriteRecord | src/kernel/fileSystem.cpp:142-148 | The field-by-field writes put down one record: hash and length least significant byte first, type, name length, name and terminator at their places, and nothing outside it. |
| Dirents.BlocksParse | src/kernel/fileSystem.cpp:124-155 | Blocks that parse one by one parse as a whole, to the same entries. |
| Dirents.File.ReadDirectory | src/kernel/fileSystem.cpp:157-168 | Copies the bytes from the offset up to the count or the end, and moves the offset past them. |
| Dirents.File.Getdirentries | src/kernel/fileSystem.cpp:1278-1298 | Fails exactly for a regular file, for less than a block, and for an offset past the end or off a block boundary. Otherwise it hands over the bytes from the offset on, never more than the buffer holds, as many whole blocks as fit or all that is left, and some before the end. |
| Dirents.ChunksTile | src/kernel/fileSystem.cpp:1278-1298 | For any sequence of calls with room for a block the chunks are the bytes passed over, nothing lost or repeated, and the offset stays at a block boundary. |
| Dirents.ChunksFit | src/kernel/fileSystem.cpp:1278-1298 | For any such sequence no chunk exceeds the buffer of its call, and none leaves room for another block before the end is reached. |
| Dirents.ChunksParse | src/kernel/fileSystem.cpp:1278-1298 | For any such sequence each chunk parses on its own, and together they give the entries of the bytes passed over. |
| Dirents.ReadBack | src/kernel/fileSystem.cpp:124-168 | Reading a packed directory to the end, with any sizes, gives its entries in order from chunks parsed one by one. |

## Left out

- Zlib.ZBuf.ParseHuffmanBlock: gives up after a budget of symbols, because length symbol 286 adds no bytes and past the end of the input the source decodes zero bytes, so a block with undefined symbols may keep its loop going; without them a budget above UINT_MAX is never spent.
- Zlib.ZBuf.ParseZlib: gives up after a budget of blocks, never spent without undefined symbols when it exceeds UINT_MAX and the bits of the input; nothing is claimed for a complete stream with fewer than two bytes after it, which the source may refuse because it wants sixteen bits at hand when it starts on a symbol.
- Zlib.ZlibDecode: makes no claim about the output of a stream that uses length symbols 286 and 287 or distance symbols 30 and 31, which section 3.2.5 of RFC 1951 leaves undefined.
- Zlib.ZBuf.Expand: whether reallocation succeeds is a parameter, and the moved buffer is a new array; the local copy of the write pointer in the block loop is the field itself.
- Dirents.PackDirents: the file number is a parameter function in place of the hash of the name; it is stored and compared, not computed.
- Encoding: choosing blocks, codes and copies is left to the caller, since the repository has no compressor; whatever the format allows can be written, except the symbols it leaves undefined.
- SyncOnAddress: a wake of a negative count; the futex path, which the Linux build takes first; condition variables are modelled by wakeups at any time, clocks by a non-decreasing input, so nothing is claimed about how soon a waiter wakes.
- EventFlag: the exits of the program for an operation on a deleted flag, the remaining time written back, the creation attributes and the queueing order; no termination of Cancel or of the destructor is claimed, since a thread that keeps entering Wait can delay them.
- EventQueue: filters with other callbacks than the user and AMPR functions, the owner pins, the sleep loop of WaitForEvents, and the handle table.
- LruCache.LeastRecentlyUsedCache.ForEachItemBelow: the callback is given by what it answers on each call; it may free the item it was given and stop the traversal, but not free or insert other items.
- BitArray: the exclusive-or, complement, fill and emptiness operators, which add no boundary cases.
- Adam7: pixels are abstract values, and decoding the passes into pixels is an input; the step from one pass to the next in the compressed data is not modelled.
- The other image decoders, the font rasteriser and all vector kernels of the bundled library.
- Mounts, paths, descriptors, sockets, logging, configuration, the graphics and shader code.
- Time-of-day arithmetic and the formatting of dates and times.
