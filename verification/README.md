# Verification of the IOCP server homework

This project models the parts of the repository where correctness is not obvious from one function, and proves
what they promise:

- **Diffie-Hellman over fixed-width integers** (`Powers`, `Digits`, `ULong`, `KeyExchanger`, `Crypter`): numbers in a
  byte buffer, computed two hexadecimal digits per byte, up to the key agreement of section 2.1.1 of RFC 2631 and the
  stream cipher keyed by it.
- **The two-region circular buffer** (`CircularBuffer`) as a refinement of a byte queue, and the **aggregated-send
  protocol** on top of it (`SendProtocol`, `SendProgress`,
  `Session`).
- **Concurrency primitives** (`Spinlock`, `SpinlockRuns`, `LockOrder`, `Executer`).
- **Session life cycle and allocators** (`SessionPool`, `SessionIo`, `SessionRun`,
  `SessionLoss`, `SessionManager`, `MemoryPool`, `ObjectPool`).

Objects that the source updates in place are classes whose methods are proved against a specification on values.
What threads do concurrently is a state machine: every interlocked operation, lock-protected section, check of a shared
flag and system call is one atomic step, a run is any sequence of steps of any threads, and a step that is not possible
changes nothing. "After every run" below means after every such sequence, from the initial state. What the operating
system answers (a send accepted or refused, bytes transferred, the address of a new block, random bytes) is a parameter
and every value of it is covered.

## What does not hold

- The loop of `ApowBmodN` never reduces its initial 1, so 0 as exponent and 1 as modulus give 1. The result is the true
  residue exactly when n > 1 or b > 0, and the two keys agree exactly when p > 1 or both exponents are zero or neither
  is (`ModularPowerIsResidue`, `KeyAgreement`).
- The writer count of the spinlock has 11 bits and threads that back off add to it. Exclusion holds in all runs exactly
  up to 2048 threads (`ExclusionExactly`).
- `DoSendJob` retries the front entry until `FlushSend` accepts it and takes no completion meanwhile. A connected
  session stops for good exactly when a send is pending, bytes are waiting and every worker is flushing with an entry it
  cannot get rid of (`ProgressExactly`), and every configuration with a worker and room for a byte can get there
  (`StuckReachable`). No wakeup is lost; it is the completion that nobody takes.
- A session comes back to the pool only through a completed disconnect. It is lost exactly when the system refuses its
  accept or its disconnect, or when its last context goes while it is still connected, as after a refused first receive
  (`LostExactly`, `LostForever`, `RefusedReceiveLoses`).
- `ObjectPool` checks only its use count, so an object given back twice while others are in use makes the free list a
  cycle (`DoubleDelete`).

## Model

| member | source | states |
|---|---|---|
| Digits.ValueInjective | HW_08_Final_DummyClient/DummyClient/ULong.h:48-51 | byte-wise equality of two buffers is equality of the numbers they stand for, in both directions |
| Digits.HigherDigitWins | HW_08_Final_DummyClient/DummyClient/ULong.h:58-72 | the highest hexadecimal digit that differs decides which number is larger |
| Digits.ShiftedValue | HW_08_Final_DummyClient/DummyClient/ULong.h:315-338 | moving every digit d places up, even or odd, is multiplication by 16^d modulo 256^n, also when everything is shifted out |
| Digits.LowIsRemainder | HW_08_Final_DummyClient/DummyClient/ULong.h:315-338 | the number the lowest k digits stand for is the remainder by 16^k |
| Digits.HasDigitsUnique | HW_08_Final_DummyClient/DummyClient/ULong.h:291-313 | a number has one digit count only: the count is determined by 16^(c-1) <= n < 16^c |
| Digits.ValueTruncate | HW_08_Final_DummyClient/DummyClient/ULong.h:281-287 | cutting a double-width buffer to half loses nothing when the number is small enough |
| Digits.DigitSumStep | HW_08_Final_DummyClient/DummyClient/ULong.h:198-209 | taking one unit off the leading digit lowers the sum of the digits by exactly one |
| BigInteger.ULong.Zero | HW_08_Final_DummyClient/DummyClient/ULong.h:13-16 | the empty number is 0 |
| BigInteger.ULong.FromLong | HW_08_Final_DummyClient/DummyClient/ULong.h:18-22 | the number built from a 32-bit unsigned value is that value, zero-extended to the width |
| BigInteger.ULong.FromBinary | HW_08_Final_DummyClient/DummyClient/ULong.h:24-35 | a byte string that fits is taken as a little-endian number; a longer one gives 0 |
| BigInteger.ULong.Equals | HW_08_Final_DummyClient/DummyClient/ULong.h:48-51 | true exactly when the numbers are equal |
| BigInteger.ULong.GreaterThan | HW_08_Final_DummyClient/DummyClient/ULong.h:58-72 | true exactly when this number is larger |
| BigInteger.ULong.AtLeast | HW_08_Final_DummyClient/DummyClient/ULong.h:74-77 | true exactly when this number is at least as large |
| BigInteger.SumStep | HW_08_Final_DummyClient/DummyClient/ULong.h:96-115 | one column of the addition keeps: digits written so far plus the carry at the next place equal the sum of the digits read so far |
| BigInteger.ULong.Plus | HW_08_Final_DummyClient/DummyClient/ULong.h:89-119 | the sum modulo 256^Dimension |
| BigInteger.DifferenceStep | HW_08_Final_DummyClient/DummyClient/ULong.h:147-166 | one column of the subtraction keeps the same balance with a borrow, including the digit that momentarily is -1 |
| BigInteger.ULong.Minus | HW_08_Final_DummyClient/DummyClient/ULong.h:140-170 | the difference modulo 256^Dimension |
| BigInteger.ULong.PlusAssign | HW_08_Final_DummyClient/DummyClient/ULong.h:121-125 | the sum modulo 256^Dimension, in place, also when the operand is the object itself |
| BigInteger.ULong.MinusAssign | HW_08_Final_DummyClient/DummyClient/ULong.h:172-176 | the difference modulo 256^Dimension, exact when there is no underflow |
| BigInteger.ULong.Increment | HW_08_Final_DummyClient/DummyClient/ULong.h:127-131 | adds one modulo 256^Dimension |
| BigInteger.ULong.Decrement | HW_08_Final_DummyClient/DummyClient/ULong.h:184-189 | subtracts one, exactly from a number that is not zero, and wraps zero to 256^Dimension - 1 |
| BigInteger.ULong.GetDigitCapacity | HW_08_Final_DummyClient/DummyClient/ULong.h:291-313 | the number of hexadecimal digits, zero for zero |
| BigInteger.ShiftStep | HW_08_Final_DummyClient/DummyClient/ULong.h:325-336 | one digit of the shift lands at its place and disturbs no digit placed before |
| BigInteger.ULong.MultiplyBy16InPowDigits | HW_08_Final_DummyClient/DummyClient/ULong.h:315-338 | multiplies by 16^digits modulo 256^Dimension for every digit count |
| BigInteger.ULong.Times | HW_08_Final_DummyClient/DummyClient/ULong.h:191-212 | the product modulo 256^Dimension, in exactly as many turns as the sum of the multiplier's hexadecimal digits |
| BigInteger.ShiftFits | HW_08_Final_DummyClient/DummyClient/ULong.h:349-359 | a divider moved under the remainder's leading digit is at most the remainder, and one digit further still fits the buffer |
| BigInteger.PassProgress | HW_08_Final_DummyClient/DummyClient/ULong.h:349-372 | what a pass leaves is strictly less than the remainder it started from, and at least one fewer pass is left |
| BigInteger.ULong.SubtractWhileAtLeast | HW_08_Final_DummyClient/DummyClient/ULong.h:365-369 | the inner loop ends with the remainder below the step and dividend = quotient * divider + remainder unchanged, without overflow of the quotient |
| BigInteger.ULong.DividePass | HW_08_Final_DummyClient/DummyClient/ULong.h:349-372 | one outer pass keeps the division equation and strictly lowers the remainder |
| BigInteger.ULong.DivideInternal | HW_08_Final_DummyClient/DummyClient/ULong.h:340-379 | for every dividend and every divider that is not zero: dividend = quotient * divider + remainder, remainder < divider, in at most two outer passes per surplus digit |
| BigInteger.ULong.DividedBy | HW_08_Final_DummyClient/DummyClient/ULong.h:220-228 | the integer quotient |
| BigInteger.ULong.Modulo | HW_08_Final_DummyClient/DummyClient/ULong.h:236-244 | the remainder |
| BigInteger.ULong.IsEvenNumber | HW_08_Final_DummyClient/DummyClient/ULong.h:262-271 | true exactly when the number is even |
| BigInteger.NarrowProduct | HW_08_Final_DummyClient/DummyClient/ULong.h:275-278 | when the digit counts add up to at most Dimension the product cannot overflow |
| BigInteger.WideProduct | HW_08_Final_DummyClient/DummyClient/ULong.h:281-284 | twice the width always holds the product |
| BigInteger.ULong.MultiplyAmodB | HW_08_Final_DummyClient/DummyClient/ULong.h:273-288 | this * a mod b in both branches, also when a or b is the object itself |
| KeyExchange.ModularPowerIsResidue | HW_08_Final_DummyClient/DummyClient/KeyExchanger.h:90-110 | square-and-multiply returns a^b mod n if and only if n > 1 or b > 0 (the loop never reduces the initial 1) |
| KeyExchange.SquareTurn | HW_08_Final_DummyClient/DummyClient/KeyExchanger.h:98-102 | squaring the base modulo n and halving an even exponent preserves result * base^counter mod n |
| KeyExchange.MultiplyTurn | HW_08_Final_DummyClient/DummyClient/KeyExchanger.h:103-107 | moving one factor into the result preserves result * base^counter mod n |
| KeyExchange.TurnsBound | HW_08_Final_DummyClient/DummyClient/KeyExchanger.h:96-108 | square-and-multiply takes at most two turns per bit of the exponent |
| KeyExchange.ApowBmodN | HW_08_Final_DummyClient/DummyClient/KeyExchanger.h:90-110 | computes the modular power for every base, exponent and modulus that is not zero, unreduced bases included, in at most two turns per bit |
| KeyExchange.KeyAgreement | HW_08_Final_DummyClient/DummyClient/KeyExchanger.h:30-67 | for every g, x, y and p > 0 the two keys agree if and only if p > 1 or x and y are both zero or both nonzero |
| KeyExchange.InvertBinary | HW_08_Final_DummyClient/DummyClient/KeyExchanger.h:112-121 | reverses the bytes in place |
| KeyExchange.DiffieHellmanKeysExchanger.Create | HW_08_Final_DummyClient/DummyClient/KeyExchanger.h:20-28 | construction is refused exactly when the prime does not have PModuleLength bytes |
| KeyExchange.DiffieHellmanKeysExchanger.GenerateExchangeData | HW_08_Final_DummyClient/DummyClient/KeyExchanger.h:30-53 | the private exponent is the reversed random bytes; the exchange data is g to that power modulo p; without random bytes, or with too many, it fails and keeps the old exponent |
| KeyExchange.DiffieHellmanKeysExchanger.CompleteExchangeData | HW_08_Final_DummyClient/DummyClient/KeyExchanger.h:55-67 | the shared key is the received number to the private exponent modulo p; data that is too long is refused |
| KeyExchange.Exchange | HW_08_Final_DummyClient/DummyClient/KeyExchanger.h:30-67 | two exchangers with one p and g end with the same key bytes exactly under the condition of KeyAgreement, in particular for every p > 1 |
| Cipher.StreamedSplit | HW_08_Final_DummyClient/DummyClient/Crypter.h:39-53 | one call equals two calls on the halves, the counter wrapping in between |
| Cipher.ChunkingIrrelevant | HW_08_Final_DummyClient/DummyClient/Crypter.h:39-69 | the stream produced does not depend on how the bytes are cut into calls |
| Cipher.DecryptUndoesEncrypt | HW_08_Final_DummyClient/DummyClient/Crypter.h:39-69 | decrypting from the counter the encryption started at gives the bytes back |
| Cipher.StreamRoundTrip | HW_08_Final_DummyClient/DummyClient/Crypter.h:39-69 | decrypting under any cutting undoes encrypting under any other cutting of the same bytes |
| Cipher.StreamedBytes | HW_08_Final_DummyClient/DummyClient/Crypter.h:39-69 | byte i of a call is added to, or has subtracted from it, the key byte at counter + i modulo the key size, modulo 256 |
| Cipher.Crypter.Encrypt | HW_08_Final_DummyClient/DummyClient/Crypter.h:39-53 | adds to byte i, modulo 256, the key byte at (counter + i) modulo the key size, for every byte, and advances the counter by the length modulo the key size; refuses empty data or an empty key and changes nothing |
| Cipher.Crypter.Decrypt | HW_08_Final_DummyClient/DummyClient/Crypter.h:55-69 | subtracts from byte i, modulo 256, the key byte at (own counter + i) modulo the key size, and advances its counter; same refusals |
| Cipher.Crypter.GenerateExchangeKey | HW_08_Final_DummyClient/DummyClient/Crypter.h:29 | the exchange key is g to the private exponent modulo p; a failing random source leaves the old one |
| Cipher.Crypter.CreateSharedKey | HW_08_Final_DummyClient/DummyClient/Crypter.h:30-34 | the shared key is the received key to the private exponent modulo p and fixes the key size; a received key that is too long leaves the old one |
| Cipher.SecureTransfer | HW_08_Final_DummyClient/DummyClient/Crypter.h:29-69 | after both sides exchange keys a message encrypted by one and decrypted by the other is unchanged and the counters stay aligned |
| Circular.SwitchedKeeps | HW_08_Final_DummyClient/DummyClient/CircularBuffer.h:39-54 | asking for the free space may create region B, which changes neither contents nor the free space reported |
| Circular.AppendedContents | HW_08_Final_DummyClient/DummyClient/CircularBuffer.h:82-88 | bytes put at the write position and committed are appended to the contents whenever they fit behind it, in either region, and the regions stay in bounds and apart |
| Circular.WrittenContents | HW_08_Final_DummyClient/DummyClient/CircularBuffer.cpp:108-148 | a write appends when it fits the reported free space and otherwise leaves the contents alone |
| Circular.RemovedContents | HW_08_Final_DummyClient/DummyClient/CircularBuffer.cpp:153-198 | removing drops the oldest min(len, stored) bytes, through the move of B to the front |
| Circular.SpaceBound | HW_08_Final_DummyClient/DummyClient/CircularBuffer.h:39-54 | stored bytes plus reported free space are at least half the capacity and at most all of it |
| Circular.FreeIsLargestGap | HW_08_Final_DummyClient/DummyClient/CircularBuffer.h:39-54 | the space reported is the larger of the two gaps around region A, and all of the gap before A once B is in it |
| Circular.HalfCapacityIsUsable | HW_08_Final_DummyClient/DummyClient/CircularBuffer.cpp:108-148 | a write always succeeds while the contents stay within half the capacity |
| Circular.ApplyRefines | HW_08_Final_DummyClient/DummyClient/CircularBuffer.cpp:6-198 | every call, a fill of the write position with Commit included, is a step of a plain byte queue; refusals leave it alone, and a fill after a report of the free space succeeds exactly up to the size reported |
| Circular.RunRefines | HW_08_Final_DummyClient/DummyClient/CircularBuffer.cpp:6-198 | every sequence of calls, fills with Commit included, gives replies and contents of some run of the byte queue, and the region invariant holds throughout |
| Circular.ReportedIsUsable | HW_08_Final_DummyClient/DummyClient/CircularBuffer.h:39-88 | asking for the free space, copying to the write position and committing appends exactly up to the size reported |
| Circular.CircularBuffer.BufferReset | HW_08_Final_DummyClient/DummyClient/CircularBuffer.h:20-30 | empties and zeroes the buffer |
| Circular.CircularBuffer.GetFreeSpaceSize | HW_08_Final_DummyClient/DummyClient/CircularBuffer.h:39-54 | the free space, with region B created when the space before A is the larger; the half-capacity bound; contents unchanged |
| Circular.CircularBuffer.Commit | HW_08_Final_DummyClient/DummyClient/CircularBuffer.h:82-88 | appends the bytes found at the write position, whenever they fit behind it |
| Circular.CircularBuffer.Peek | HW_08_Final_DummyClient/DummyClient/CircularBuffer.cpp:6-40 | returns the oldest bytes and changes nothing; refuses, touching neither buffer, if fewer are stored |
| Circular.CircularBuffer.Read | HW_08_Final_DummyClient/DummyClient/CircularBuffer.cpp:42-103 | returns and drops the oldest bytes, or refuses and changes nothing |
| Circular.CircularBuffer.Write | HW_08_Final_DummyClient/DummyClient/CircularBuffer.cpp:108-148 | appends exactly when the bytes fit what GetFreeSpaceSize reports, otherwise contents unchanged |
| Circular.CircularBuffer.SwitchBToA | HW_08_Final_DummyClient/DummyClient/CircularBuffer.cpp:80-99 | when A is used up the rest of B is moved to the front and becomes A |
| Circular.CircularBuffer.Remove | HW_08_Final_DummyClient/DummyClient/CircularBuffer.cpp:153-198 | drops the oldest min(len, stored) bytes |
| Sessions.Session.constructor | HW_06_DB/EduServer_IOCP/Session.cpp:11-15 | a new session is unconnected with nothing posted and nothing pending |
| Sessions.Session.AcceptCompletion | HW_06_DB/EduServer_IOCP/ClientSession.cpp:73-82 | sets the connected flag and crashes exactly when it was set |
| Sessions.Connect | HW_06_DB/EduServer_IOCP/ClientSession.cpp:73-82 | a session once accepted is where the runs of the send protocol start, whatever its empty buffer holds |
| Sessions.Session.DisconnectRequest | HW_06_DB/EduServer_IOCP/Session.cpp:19-35 | clears the connected flag; only the caller that found it set goes on |
| Sessions.Session.PostSend | HW_06_DB/EduServer_IOCP/Session.cpp:98-118 | accepts exactly when connected and the bytes fit; then they are appended and this worker's list gains one entry, otherwise contents and list are unchanged |
| Sessions.Session.FlushSend | HW_06_DB/EduServer_IOCP/Session.cpp:121-171 | the five outcomes: disconnected, nothing to send, send pending, send refused, send started on the whole oldest region |
| Sessions.Session.SendCompletion | HW_06_DB/EduServer_IOCP/Session.cpp:181-188 | drops the transferred bytes off the buffer and puts exactly those on the wire |
| Sending.PostKeeps | HW_06_DB/EduServer_IOCP/Session.cpp:98-118 | a post keeps order and in-flight bytes and makes at most one new unsent piece, which its list entry covers |
| Sending.FlushKeeps | HW_06_DB/EduServer_IOCP/Session.cpp:121-171 | a flush that drops its entry either leaves nothing unsent or takes one whole piece into flight |
| Sending.CompletedKeeps | HW_06_DB/EduServer_IOCP/Session.cpp:181-188 | a completion moves bytes from the buffer to the wire and makes no new unsent piece when the send was full |
| Sending.AlwaysInv | HW_06_DB/EduServer_IOCP/WorkerThread.cpp:37-142 | the invariant of connection and workers holds after every run of every number of workers |
| Sending.NoLostWakeup | HW_06_DB/EduServer_IOCP/WorkerThread.cpp:129-142 | in every reachable state of a connected session whose sends completed in full, unsent bytes imply a worker, not waiting on the port, with an entry for the session still to act on |
| Sending.SendOrder | HW_06_DB/EduServer_IOCP/Session.cpp:98-188 | after every run: bytes on the wire followed by bytes buffered equal the bytes accepted, in order; the pending count is 0 or 1; the bytes in flight are the oldest ones buffered |
| Sending.InFlightStable | HW_06_DB/EduServer_IOCP/Session.cpp:98-188 | no step of any thread moves or changes the bytes of a send that stays in flight |
| SendProgress.WayOutWorks | HW_06_DB/EduServer_IOCP/WorkerThread.cpp:37-142 | any worker that FlushSend would not refuse, or that is not flushing, can change the connection by its own steps |
| SendProgress.ShortSendCloses | HW_06_DB/EduServer_IOCP/WorkerThread.cpp:48-65 | after every run in which a send failed or fell short, the connection is closed or some worker is about to close it |
| SendProgress.FullExactly | HW_06_DB/EduServer_IOCP/WorkerThread.cpp:92-100 | the history of full sends is exact: it is unbroken if and only if no completion of the run failed or fell short |
| SendProgress.FlushDrops | HW_06_DB/EduServer_IOCP/Session.cpp:121-140 | after every run, flushing a disconnected session, or one with nothing to send and nothing pending, drops the entry and changes nothing else |
| SendProgress.FlushWaits | HW_06_DB/EduServer_IOCP/Session.cpp:142-144 | after every run, flushing while a send is pending keeps the entry and changes nothing |
| SendProgress.FlushSends | HW_06_DB/EduServer_IOCP/Session.cpp:147-170 | after every run, flushing with bytes to send and none pending puts exactly the oldest region in flight and drops the entry |
| SendProgress.FlushRefused | HW_06_DB/EduServer_IOCP/Session.cpp:155-164 | after every run, a refused send disconnects, drops the entry and leaves the bytes where they are |
| SendProgress.PostTurn | HW_06_DB/EduServer_IOCP/Session.cpp:98-118 | after every run, a post is refused on a disconnected session, and on a connected one is buffered last and remembered exactly if it fits |
| SendProgress.CompletionTurn | HW_06_DB/EduServer_IOCP/WorkerThread.cpp:92-121 | after every run, a completed send moves the bytes transferred from the front of the buffer to the wire; its worker goes on if those were all and closes the connection otherwise |
| SendProgress.Delivers | HW_06_DB/EduServer_IOCP/WorkerThread.cpp:92-142 | with any number of workers, data that fits the buffer can be posted, flushed and completed onto the wire |
| SendProgress.StuckForever | HW_06_DB/EduServer_IOCP/WorkerThread.cpp:129-142 | once every worker is flushing with an entry it cannot get rid of while a send is pending, no run of any length changes the connection |
| SendProgress.ProgressExactly | HW_06_DB/EduServer_IOCP/WorkerThread.cpp:129-142 | after every run that ends connected, no continuation changes the connection again if and only if there is no worker or the state is stuck: a send pending, bytes to send, and every worker flushing with an entry left |
| SendProgress.StuckReachable | HW_06_DB/EduServer_IOCP/WorkerThread.cpp:129-142 | for every number of workers and every buffer, a stuck state is reachable if and only if there is a worker and room for a byte |
| Spinlock.WordAdds | HW_05_MT/EduServer_IOCP/FastSpinlock.h:33-38 | adding to the flag word is adding to the writer or reader count, wrap-around of the 32-bit word included |
| Spinlock.WordBits | HW_05_MT/EduServer_IOCP/FastSpinlock.h:33-38 | the masks recover both counts as long as neither field overflows; 2048 writers read as none and 2049 as one |
| Spinlock.MovedWord | HW_05_MT/EduServer_IOCP/FastSpinlock.cpp:17-96 | every step keeps: the flag is 2^20 times the writers that have added themselves plus the readers that have |
| Spinlock.MovedExclusion | HW_05_MT/EduServer_IOCP/FastSpinlock.cpp:17-96 | every step of at most 2048 threads keeps at most one thread past the writer test and no reader inside with a writer |
| Spinlock.AlwaysInv | HW_05_MT/EduServer_IOCP/FastSpinlock.cpp:17-96 | flag, exclusion and lock-order stacks are right after every run |
| Spinlock.WritersExclude | HW_05_MT/EduServer_IOCP/FastSpinlock.cpp:17-96 | with at most 2048 threads and any locks, after every run a writer inside a lock is alone in it |
| Spinlock.ExclusionExactly | HW_05_MT/EduServer_IOCP/FastSpinlock.cpp:17-96 | for every set of locks, ordered or not, and every lock of it: exclusion holds in all runs if and only if there are at most 2048 threads |
| Spinlock.FlagRestored | HW_05_MT/EduServer_IOCP/FastSpinlock.cpp:17-96 | after every run a lock nobody is inside, draining, leaving or backing off from has flag zero, for any number of threads: no transient add is left behind |
| Spinlock.TwoWriters | HW_05_MT/EduServer_IOCP/FastSpinlock.cpp:23-39 | with 2049 threads or more a run puts two writers inside any given lock: all see the bits clear, then add, and the last reads a single writer |
| Spinlock.RankRises | HW_05_MT/EduServer_IOCP/LockOrderChecker.cpp:12-26 | a thread waited for, if it waits itself, waits for a lock of higher order, or drains the same lock |
| Spinlock.NoWaitCycle | HW_05_MT/EduServer_IOCP/FastSpinlock.cpp:17-96 | after every run there is no cycle of threads waiting for one another over ordered locks |
| Spinlock.DeadlockFree | HW_05_MT/EduServer_IOCP/FastSpinlock.cpp:17-96 | after every run, if a thread is stuck on an ordered lock then some thread that is waited for is not |
| LockOrder.PushKeepsIncreasing | HW_05_MT/EduServer_IOCP/LockOrderChecker.cpp:12-26 | comparing with the top alone keeps the whole stack strictly increasing, so no ordered lock is entered twice |
| LockOrder.PushAllowedExactly | HW_05_MT/EduServer_IOCP/LockOrderChecker.cpp:12-26 | the test against the top passes exactly if the lock is above every lock held and fewer than 32 are held |
| LockOrder.LockOrderChecker.Push | HW_05_MT/EduServer_IOCP/LockOrderChecker.cpp:12-26 | pushes exactly if fewer than 32 locks are held and all of them are of lower order, and crashes otherwise |
| LockOrder.LockOrderChecker.Pop | HW_05_MT/EduServer_IOCP/LockOrderChecker.cpp:28-42 | takes the lock off exactly if the stack ends with it, and crashes otherwise |
| SpinlockRuns.EntryCrashesExactly | HW_05_MT/EduServer_IOCP/FastSpinlock.cpp:17-62 | after every run, entering a lock crashes exactly if it is ordered and not above every ordered lock the thread is inside, or 32 are held; otherwise the thread is on its way into the mode it asked for and no flag has changed |
| SpinlockRuns.LeaveCrashesExactly | HW_05_MT/EduServer_IOCP/FastSpinlock.cpp:43-96 | after every run, leaving crashes exactly if the thread is inside an ordered lock of higher order; otherwise it is on its way out of the mode it was in |
| SpinlockRuns.ModeKept | HW_05_MT/EduServer_IOCP/FastSpinlock.cpp:17-96 | after every run a thread that last went for a lock to read is in none of the writer phases there, and one that went to write in none of the reader phases |
| SpinlockRuns.ReadersShare | HW_05_MT/EduServer_IOCP/FastSpinlock.cpp:52-87 | for every set of locks, every lock of it and every n below 2^20: some run has n threads inside as readers at once, with flag n |
| SpinlockRuns.ReadInAndOut | HW_05_MT/EduServer_IOCP/FastSpinlock.cpp:52-96 | a thread alone reads with flag 1, and leaving restores the free lock |
| SpinlockRuns.WriteInAndOut | HW_05_MT/EduServer_IOCP/FastSpinlock.cpp:17-50 | a thread alone writes with flag 2^20, and leaving restores the free lock |
| Executer.CounterStep | HW_05_MT/EduServer_IOCP/GrandCentralExecuter.h:20-51 | every step keeps: the counter is tasks queued, about to be pushed or unfinished, and one activation is responsible exactly while it is not zero |
| Executer.AlwaysInv | HW_05_MT/EduServer_IOCP/GrandCentralExecuter.h:15-56 | counter, order and exactly-once hold after every run of every number of threads |
| Executer.OneDrainer | HW_05_MT/EduServer_IOCP/GrandCentralExecuter.h:15-56 | after every run at most one activation drains or runs a task, nested dispatches included |
| Executer.QueueHasDrainer | HW_05_MT/EduServer_IOCP/GrandCentralExecuter.h:15-56 | a queue that is not empty always has a live activation responsible for it |
| Executer.EmptyQueueHasPusher | HW_05_MT/EduServer_IOCP/GrandCentralExecuter.h:33-53 | a drainer that finds the queue empty is always about to be given a task |
| Executer.QueueOrder | HW_05_MT/EduServer_IOCP/GrandCentralExecuter.h:15-56 | tasks start in the order pushed and finish in the order started, one unfinished at most, none pushed or run twice |
| Executer.DispatchIssues | HW_05_MT/EduServer_IOCP/GrandCentralExecuter.h:15-31 | a dispatch by a thread that is idle or inside a task is issued whatever the counter is |
| Executer.IssuedExactly | HW_05_MT/EduServer_IOCP/GrandCentralExecuter.h:15-31 | after every run the tasks issued are as many as the dispatches made by threads that were idle or inside a task |
| Executer.AllRunOnce | HW_05_MT/EduServer_IOCP/GrandCentralExecuter.h:15-56 | when all activations have returned every dispatch of the run has led to one task that has run exactly once |
| Executer.ComesToRest | HW_05_MT/EduServer_IOCP/GrandCentralExecuter.h:33-53 | from every reachable state some continuation without further dispatches brings all threads out of the executer |
| Executer.EveryTaskCanRun | HW_05_MT/EduServer_IOCP/GrandCentralExecuter.h:15-56 | after every run some continuation leaves every dispatched task finished exactly once |
| SessionPool.ConstructKeeps | HW_04_POOLING/EduServer_IOCP/ClientSession.cpp:9-15 | constructing a context for a session adds exactly one reference and keeps the invariant |
| SessionPool.ReleaseKeeps | HW_04_POOLING/EduServer_IOCP/ClientSession.cpp:280-290 | releasing a reference keeps the count exact and sends the session back exactly when it reaches zero |
| SessionPool.HandleKeeps | HW_04_POOLING/EduServer_IOCP/ClientSession.cpp:71-266 | every step of every completion handler keeps the invariant, whatever the system calls answer |
| SessionPool.CompleteKeeps | HW_04_POOLING/EduServer_IOCP/IocpManager.cpp:142-251 | dequeueing any completion with any outcome keeps the invariant |
| SessionPool.MainKeeps | HW_04_POOLING/EduServer_IOCP/SessionManager.cpp:49-67 | every step of the accept loop keeps the invariant |
| SessionPool.ReturnKeeps | HW_04_POOLING/EduServer_IOCP/SessionManager.cpp:36-47 | returning a session keeps the invariant |
| SessionPool.AcceptDroppedKeeps | HW_04_POOLING/EduServer_IOCP/ClientSession.cpp:59-65 | deleting the accept context after a refused call never brings the count to zero, so the held manager lock is never retaken |
| SessionPool.NeverCrashes | HW_04_POOLING/EduServer_IOCP/SessionManager.cpp:36-67 | in no run does an assertion on the reference count, on the connected flag at accept, or on flag and count at return fire, and the accept loop never takes from an empty list |
| SessionPool.ReferencesCounted | HW_04_POOLING/EduServer_IOCP/ClientSession.cpp:276-328 | after every run a session's count is its live contexts plus the issue reference, and zero exactly when it is in the pool or on its way back |
| SessionPool.ReturnedAtMostOnce | HW_04_POOLING/EduServer_IOCP/SessionManager.cpp:36-67 | after every run a session has been returned as often as issued, or once less exactly while it is out of the pool |
| SessionPool.PoolConserved | HW_04_POOLING/EduServer_IOCP/SessionManager.cpp:20-67 | after every run free + issued - returned is MAX_CONNECTION with returned <= issued, the free list repeats nothing and holds no session that is referred to, and it is empty exactly when the loop's guard fails |
| SessionIo.HandleChain | HW_04_POOLING/EduServer_IOCP/ClientSession.cpp:71-266 | no step of a completion handler adds to its session's chain of accept, receive and send: it hands it to the context it posts or ends it |
| SessionIo.AlwaysOneChain | HW_04_POOLING/EduServer_IOCP/ClientSession.cpp:71-266 | after every run a session has one chain of I/O at most, across returns and reissues |
| SessionIo.OneIoAtATime | HW_04_POOLING/EduServer_IOCP/IocpManager.cpp:182-251 | after every run at most one accept, receive or send of a session is outstanding or about to be posted, so one completion at a time touches its buffer |
| SessionRun.AcceptPosts | HW_04_POOLING/EduServer_IOCP/SessionManager.cpp:53-64 | after every run, while a session is out of use the accept loop issues the last one of the pool with two references and leaves its accept pending |
| SessionRun.AcceptHandsOn | HW_04_POOLING/EduServer_IOCP/ClientSession.cpp:71-139 | after every run, a completed accept connects its session and leaves exactly its first pre-receive pending |
| SessionRun.SetupFailureDisconnects | HW_04_POOLING/EduServer_IOCP/ClientSession.cpp:82-131 | after every run, an accept whose socket cannot be set up leaves exactly a disconnect pending |
| SessionRun.SuccessHandsOn | HW_04_POOLING/EduServer_IOCP/IocpManager.cpp:195-251 | after every run, a successful pre-receive, receive or send of a connected session leaves exactly the next of receive, send and pre-receive pending, and nothing else changed |
| SessionRun.FailureDisconnects | HW_04_POOLING/EduServer_IOCP/IocpManager.cpp:158-178 | after every run, a failed receive or a send that failed or fell short disconnects a connected session and leaves exactly a disconnect pending |
| SessionRun.RefusalDisconnects | HW_04_POOLING/EduServer_IOCP/IocpManager.cpp:213-219 | after every run, if the system refuses the next I/O of a connected session its handler disconnects it and leaves exactly a disconnect pending |
| SessionRun.NoSpaceDisconnects | HW_04_POOLING/EduServer_IOCP/ClientSession.cpp:195-203 | after every run, a connected session without space to receive into is disconnected |
| SessionRun.NothingToSendEnds | HW_04_POOLING/EduServer_IOCP/ClientSession.cpp:235-243 | after every run, a receive with nothing to echo ends the chain with the session still connected |
| SessionRun.DisconnectedEnds | HW_04_POOLING/EduServer_IOCP/ClientSession.cpp:169-238 | after every run, a completed I/O of a disconnected session only gives up its own reference |
| SessionRun.DisconnectGivesBack | HW_04_POOLING/EduServer_IOCP/ClientSession.cpp:160-166 | after every run, a completed disconnect of a session nobody else refers to puts it at the back of the pool |
| SessionRun.NobodyDisconnected | HW_04_POOLING/EduServer_IOCP/IocpManager.cpp:142-251 | in a run in which everything completes in full and every call is accepted, no session is ever disconnected and none asks to be |
| SessionLoss.LostExactly | HW_04_POOLING/EduServer_IOCP/ClientSession.cpp:46-158 | after every run a session without live contexts stays out of the pool if and only if it is still connected (its chain of I/O ended without a disconnect) or the system refused its accept or its disconnect; never both |
| SessionLoss.LostForever | HW_04_POOLING/EduServer_IOCP/SessionManager.cpp:36-47 | such a session never comes back to the pool, however the run goes on |
| SessionLoss.RefusedForever | HW_04_POOLING/EduServer_IOCP/ClientSession.cpp:142-158 | a session whose accept or disconnect the system refused never comes back to the pool, whatever contexts it still has |
| SessionLoss.RefusedAcceptLoses | HW_04_POOLING/EduServer_IOCP/ClientSession.cpp:56-66 | a refused AcceptEx loses a session: a concrete run with a pool of one |
| SessionLoss.RefusedReceiveLoses | HW_04_POOLING/EduServer_IOCP/ClientSession.cpp:135-138 | a first receive refused after the accept, which is only reported, loses the session while connected: a concrete run with a pool of one |
| Manager.SessionManager.constructor | HW_04_POOLING/EduServer_IOCP/SessionManager.cpp:20-30 | the pool is filled with MAX_CONNECTION unconnected sessions, each once |
| Manager.SessionManager.ReturnClientSession | HW_04_POOLING/EduServer_IOCP/SessionManager.cpp:36-47 | puts the session at the back of the list, or crashes exactly when it is connected or referred to; the list stays free of repetitions exactly if the session was not on it |
| Manager.SessionManager.AcceptSessions | HW_04_POOLING/EduServer_IOCP/SessionManager.cpp:49-67 | issues sessions from the back of the list as AcceptAll specifies, never from an empty list, and keeps free + issued - returned constant |
| Manager.AcceptTakes | HW_04_POOLING/EduServer_IOCP/SessionManager.cpp:53-64 | exactly the issued sessions leave the list, and the loop succeeds unless the last post was refused |
| Manager.AcceptIssues | HW_04_POOLING/EduServer_IOCP/SessionManager.cpp:53-64 | each session the loop reaches is issued once, with one reference for the issue and one for an accepted post; those it does not reach are unchanged |
| Manager.AcceptSpares | HW_04_POOLING/EduServer_IOCP/SessionManager.cpp:53-64 | a session that is not on the list is not touched |
| Manager.TurnIsMainSteps | HW_04_POOLING/EduServer_IOCP/SessionManager.cpp:53-64 | one turn of the loop is what the atomic steps of the main thread do without interference |
| MemoryPooling.ClassOf | HW_04_POOLING/EduServer_IOCP/MemoryPool.cpp:49-82 | the smallest of the size classes that holds the given number of bytes |
| MemoryPooling.AddClasses | HW_04_POOLING/EduServer_IOCP/MemoryPool.cpp:49-57 | one constructor loop creates a pool for each of its classes and leads all sizes above the class before to it |
| MemoryPooling.BuildTable | HW_04_POOLING/EduServer_IOCP/MemoryPool.cpp:43-82 | after the three loops every size from 1 to 4096 leads to the one pool of the smallest class that holds it |
| MemoryPooling.SmallSizeMemoryPool.Pop | HW_04_POOLING/EduServer_IOCP/MemoryPool.cpp:14-31 | hands out the block pushed last, or a new one of the class size when there is none; the assertion on the header never fires |
| MemoryPooling.SmallSizeMemoryPool.Push | HW_04_POOLING/EduServer_IOCP/MemoryPool.cpp:33-39 | puts the block on top and counts it back |
| MemoryPooling.MemoryPool.constructor | HW_04_POOLING/EduServer_IOCP/MemoryPool.cpp:43-85 | the pools start empty and the table leads to them |
| MemoryPooling.MemoryPool.Allocate | HW_04_POOLING/EduServer_IOCP/MemoryPool.cpp:87-105 | hands out the top of its class's stack, or a new block of that class, or above 4096 bytes one of the exact size, with a header that records the total size; everything else is unchanged |
| MemoryPooling.MemoryPool.Deallocate | HW_04_POOLING/EduServer_IOCP/MemoryPool.cpp:107-125 | returns the block to the pool of its class, or to the system above 4096 bytes; a block freed twice is caught, exactly when it is not live |
| MemoryPooling.MemoryPool.HeaderTells | HW_04_POOLING/EduServer_IOCP/MemoryPool.cpp:112-114 | a header holds a positive size exactly while its block is live, and it is the size asked for |
| MemoryPooling.AllocatedKeeps | HW_04_POOLING/EduServer_IOCP/MemoryPool.cpp:87-105 | allocation keeps the store consistent and never hands out a block in use |
| MemoryPooling.FreedKeeps | HW_04_POOLING/EduServer_IOCP/MemoryPool.cpp:107-125 | freeing keeps the store consistent |
| MemoryPooling.AlwaysConsistent | HW_04_POOLING/EduServer_IOCP/MemoryPool.cpp:87-125 | after every sequence of allocations and frees: blocks disjoint, live and free blocks apart, none lost, counts exact |
| MemoryPooling.SmallestFit | HW_04_POOLING/EduServer_IOCP/MemoryPool.cpp:87-105 | after every run each live block is of the smallest class that fits, or of the exact size asked for above 4096 bytes |
| MemoryPooling.OwnersDoNotMeet | HW_04_POOLING/EduServer_IOCP/MemoryPool.h:8-42 | after every run the bytes an owner may write lie in no other block, live or free, and in no header |
| MemoryPooling.ReturnsToItsClass | HW_04_POOLING/EduServer_IOCP/MemoryPool.cpp:107-125 | after every run a freed block goes on the stack of the class it was obtained for, and nothing else moves |
| MemoryPooling.FreedIsNext | HW_04_POOLING/EduServer_IOCP/MemoryPool.cpp:14-39 | after every run the block just freed is the next one handed out to its class, which restores stacks, counts and blocks |
| MemoryPooling.ClassConserved | HW_04_POOLING/EduServer_IOCP/MemoryPool.cpp:14-39 | after every run the blocks ever obtained for a class are those counted in use plus those on its stack |
| ObjectPooling.ThreadEnds | HW_04_POOLING/EduServer_IOCP/ObjectPool.h:21-35 | following next pointers visits the threaded nodes in order and then stays at null: the list is acyclic |
| ObjectPooling.ThreadUnique | HW_04_POOLING/EduServer_IOCP/ObjectPool.h:41-42 | head and memory determine the nodes of the list |
| ObjectPooling.ChunkShape | HW_04_POOLING/EduServer_IOCP/ObjectPool.h:21-37 | threading a new chunk makes all its objects free, each once, overlapping nothing, and leaves objects in use untouched |
| ObjectPooling.PopShape | HW_04_POOLING/EduServer_IOCP/ObjectPool.h:41-43 | taking the head leaves a threaded list of the rest |
| ObjectPooling.PushShape | HW_04_POOLING/EduServer_IOCP/ObjectPool.h:57-60 | an object put back, whatever its owner wrote into it, becomes the head of a threaded list |
| ObjectPooling.ObjectPool.ThreadChunk | HW_04_POOLING/EduServer_IOCP/ObjectPool.h:21-37 | the loop threads all ALLOC_COUNT objects of the chunk in order and ends with null |
| ObjectPooling.ObjectPool.New | HW_04_POOLING/EduServer_IOCP/ObjectPool.h:13-47 | hands out the head of the list, from a new chunk if it was empty; total = in use + free; the assertion on the counts never fires |
| ObjectPooling.ObjectPool.Delete | HW_04_POOLING/EduServer_IOCP/ObjectPool.h:49-61 | puts the object at the head, or crashes exactly when nothing is in use; the list keeps an end exactly if the object was in use, and then total = in use + free |
| ObjectPooling.DoubleDelete | HW_04_POOLING/EduServer_IOCP/ObjectPool.h:55-60 | giving back an object that is already free makes the free list a cycle that never comes to null |
| ObjectPooling.ObjectPool.WriteObject | HW_04_POOLING/EduServer_IOCP/ObjectPool.h:13-61 | an owner writing into its object leaves the free list whole |
| ObjectPooling.ObjectPool.FreeListEnds | HW_04_POOLING/EduServer_IOCP/ObjectPool.h:13-61 | following the list from its head meets exactly total - in use objects, none of them in use, and then null |

## Left out

- Winsock, completion-port, thread and timer calls: only their outcomes are modelled, as parameters of steps.
- Database code, generated packet code, stack walking, crash dumps, logging and option parsing: not modelled.
- Random exponents and key transport: the exponent is any byte string of at least PModuleLength bytes.
- KeyExchange.DiffieHellmanKeysExchanger.CompleteExchangeData: data shorter than PModuleLength is excluded, as the source then reads beyond its vector.
- Cipher.Crypter.CreateSharedKey: excludes received keys shorter than PModuleLength for the same reason.
- Sessions.Session.DisconnectRequest: the disconnect context and the call of DisconnectEx are in SessionPool only; here the flag is what the send protocol sees.
- A modulus of zero: the division loops would not end, so the operations that divide require a modulus or divider that is not zero.
- 32-bit `unsigned long` and signed `char`: the buffer is a sequence of unsigned bytes; the sign of a digit matters only for the borrow, which is modelled.
- Session-level use of the cipher: the receive paths of the sessions call `Encrypt`, so the round trip is stated on `Crypter` alone.
- Packet framing in `ClientSession::OnRead`: it depends on stream classes that are not part of this model.
- Session reuse in the send protocol: the pending count is not reset between connections, so a run covers one connection that starts with pending count 0.
- Sending.NoLostWakeup: covers sessions whose sends completed in full, as a short or failed send closes the connection; the entries of other sessions in a worker's list are left out, as they do not change which entries this session has.
- SendProgress.ProgressExactly: speaks of one session; a worker may also be held up by the entry of another session at the front of its list.
- Sending.SendOrder: a failed completion is taken to have put no bytes on the wire; nothing is sent after it.
- `DoSendJob` as a loop: it need not end, so it is modelled as steps and not as a method.
- Progress of the spin loops of `FastSpinlock` and of the drain loop of the executer: only safety and deadlock freedom are stated.
- Spinlock.WritersExclude: a thread that enters a `LO_DONT_CARE` lock it is already inside is not modelled as one thread; the lock cannot tell it from another thread, so each such entry counts as one more thread of the bound.
- Spinlock.ExclusionExactly: counts threads as WritersExclude does; re-entry of a `LO_DONT_CARE` lock is not modelled.
- Spinlock.FlagRestored: speaks of locks entered once by each thread; re-entry of a `LO_DONT_CARE` lock is not modelled.
- Spinlock.NoWaitCycle: locks declared `LO_DONT_CARE` bypass the lock-order checker and are not covered, nor is re-entry of such a lock.
- Spinlock.DeadlockFree: stated for fewer than 2^20 threads, beyond which the reader field itself overflows.
- The class guards of `FastSpinlock.h`: each is one enter and one leave.
- Overflow of the 64-bit task counter, of the reference count and of the issue and return counters: they are unbounded.
- Session buffers in `SessionPool`: whether there is space to receive or data to send is an outcome of the step, as the buffer has its own proof.
- SessionLoss.LostExactly: speaks of sessions all of whose contexts are gone; before that, RefusedForever covers a refused call, and a connected session whose last contexts are still being deleted counts as lost once they are gone.
- Manager.SessionManager.AcceptSessions: runs without interference by completion handlers of the sessions being issued; the interleaved steps are those of SessionPool, tied to it by TurnIsMainSteps.
- Exhausted memory and `int` overflow of the requested size: the system always gives a block, at an address that overlaps none it has given before.
- Alignment of blocks and the next pointer inside a block's header: a pool's free list is a sequence of headers.
- MemoryPooling.MemoryPool.Deallocate: a block above 4096 bytes freed twice is memory the system has taken back, so such a pointer is excluded by the precondition.
- Concurrent use of the lock-free stacks and of the object pool's lock: each operation is one step, as the source makes it.
- `xnew` and `xdelete`: they add construction and destruction to Allocate and Deallocate.
- ObjectPooling.ObjectPool.Delete: an address that was never an object of the pool is excluded by the precondition.
