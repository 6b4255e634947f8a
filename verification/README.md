# Verified models of the requiemdb library

requiemdb stores IDMEF messages in SQL databases. This project models the parts of it whose
correctness does not show from reading one function, and proves what they are for. It has four
parts.

**Printing numbers** (`vasnprintf.c`). The library carries its own printf with exact decimal
conversion. `Limbs`, `Multiply`, `Shift`, `QuotientDigit`, `LongDivision` and `Divide` model its
bignums of 32-bit limbs as arrays that are changed in place, with carries in 64 bits;
`Rounding` says what rounding half to even is; `Decimal`, `Scale10` and `Exponent` lead to the
digits of `m * 2^e * 10^n` and to the exponent of `%e` and `%g`, and `Layout` to the characters
and what they denote (section 7.19.6.1 of ISO C99). `PrintfParse` is the parser of formats,
`Directives` says character by character what it does, `FormatFacts` and `Reparse` what its result
is good for, and `Memchr` is the search by words.

**Locks** (`glthread/lock.c`). `WaitQueue` is the circular array of waiting events as a class.
`HandoffLock`, `CondLock`, `Once` and `RecursiveLock` are state machines: a step is a critical
section, or a single read or write of a shared field where there is none, and the theorems are
about every state of every run of any number of threads. `HandoffSteps` takes the critical section
of unlocking apart, since woken threads look at the lock while it is under way. Where the C code changes the fields of
a lock inside a critical section there is also a class whose methods are shown to do what the
steps say.

**Messages as rows** (`plugins/format/classic`). Alerts and heartbeats (section 4.2 of RFC 4765)
are kept in some 35 tables. `Idmef` has the trees and says, for every primary key, which part of
a tree is found under it. `Insert` stores a tree, `Get` reads it back, `Delete` erases it, and
`Join` compiles a path to conditions on rows; all of them are compared with that one reference.
`Selection` follows a path down the tree itself and shows that the conditions select the rows of
just the elements found.

**Statements and batches** (`requiemdb-sql.c`, `requiemdb-admin.c`). `Transaction` is the
connection with its lock and transaction flag, `CopyMove` the copying and moving of messages
between databases. Each statement may succeed, fail, or lose the connection.

Deviations of the code from what one would expect are modelled as they are, and the theorems say
exactly when they matter:

- The arguments of a process are read back under a parent index that is converted to `char`
  (`Get.ReadsTheSame`).
- The last argument and environment variable of a process, and the last ident of a tool alert,
  are not stored under index -1 (`Insert.InsertProcess`, `Insert.InsertKind`), so that a path that
  asks for one of them selects nothing (`Selection.JoinFinds`).
- A path to the permissions of a file access loses the index of the access
  (`Selection.PermissionsExactInAlert`).
- Connecting again clears the transaction flag (`Transaction.Sql.DeleteMessage`).
- A move with a batch of 1024 messages or more deletes messages before they are committed
  (`CopyMove.Move`).
- The comment before `divide` says that a guess may be corrected twice in a loop; the code has two
  nested tests instead, and `QuotientDigit.GuessCorrected` shows that they suffice.

## Model

| member | source | states |
|---|---|---|
| Multiply.MultiplyRow | libmissing/vasnprintf.c:370-383 | one row of the schoolbook product adds digit1 * p2 at limb i, the new top limb included, touches no other limb, and its 64-bit carry never overflows |
| Multiply.NormalisedLength | libmissing/vasnprintf.c:384-386 | dropping zero limbs from the top keeps the value and leaves a normalised number |
| Multiply.Multiply | libmissing/vasnprintf.c:328-391 | the value of the result is the product of the values, for all operands, normalised or not, and the result is normalised |
| Rounding.RoundsToIff | libmissing/vasnprintf.c:393-399 | the relation "q is a/b rounded to an integer, ties to even" and the function that rounds the floor up by the code's test describe the same number, so there is exactly one |
| Rounding.RoundsToUnique | libmissing/vasnprintf.c:393-399 | at most one integer is the rounding of a fraction |
| Rounding.RoundsToMonotone | libmissing/vasnprintf.c:393-399 | a larger fraction does not round to a smaller integer |
| Rounding.RoundsToSameFraction | libmissing/vasnprintf.c:1046-1060 | equal fractions round to the same integer, so that cancelling a common factor before dividing does not change the result |
| Shift.CountShift | libmissing/vasnprintf.c:537-568 | the binary search over the top limb finds the shift s < 32 that brings it to at least half of beta without overflowing |
| Shift.ShiftLeft | libmissing/vasnprintf.c:568-618 | copying with a shift multiplies by 2^s; what does not fit into the limbs is the returned carry, which is below 2^s |
| Shift.ScaleInPlace | libmissing/vasnprintf.c:1085-1122 | multiplying a bignum in place by a factor below beta, with a limb added only if the carry is not zero |
| QuotientDigit.GuessCorrected | libmissing/vasnprintf.c:668-676 | after at most two corrections the guess is the quotient of the three leading limbs by the two leading limbs of the divisor |
| QuotientDigit.GuessDigit | libmissing/vasnprintf.c:631-679 | guess, overflow case and corrections give the quotient of the leading limbs (or beta - 1 if that is larger), without overflow in 64 bits |
| QuotientDigit.GuessBound | libmissing/vasnprintf.c:662-677 | the guess from the leading limbs is the true quotient digit or one more |
| QuotientDigit.SubtractMultiple | libmissing/vasnprintf.c:682-700 | the complement-and-carry loop subtracts q * b, and returns what is to be borrowed from the next limb |
| QuotientDigit.AddBack | libmissing/vasnprintf.c:707-723 | the comparison of complements computes the carry, so that b is added back exactly |
| LongDivision.DigitWasHigh | libmissing/vasnprintf.c:701-726 | a borrow beyond the top limb means that the guess was one too high, and adding b back once repairs it |
| LongDivision.DivideDigit | libmissing/vasnprintf.c:629-732 | one pass of the loop: with r < beta * b before it, afterwards old r = q[j] * b + r with r < b, and q[j] sits in the limb that r has freed |
| LongDivision.DivisionStep | libmissing/vasnprintf.c:418-445 | the pass for j keeps the relation between the dividend, the quotient limbs stored so far and the remainder, 0 <= r < b * beta^(j+1) |
| LongDivision.DivisionLoop | libmissing/vasnprintf.c:621-733 | quotient and remainder in one array: the upper limbs end up as a / b and the lower ones as a % b |
| Divide.DivideShort | libmissing/vasnprintf.c:499-531 | division by a single limb gives quotient and remainder |
| Divide.ShiftDivisor | libmissing/vasnprintf.c:568-594 | the shifted divisor has its top bit set, and the abort after the shift is unreachable |
| Divide.MustRoundUp | libmissing/vasnprintf.c:758-779 | the limb-by-limb comparison of 2r with b decides rounding half to even |
| Divide.Increment | libmissing/vasnprintf.c:780-787 | adding 1 with the carry running through, at most into one limb more, for which there is room |
| Divide.Divide | libmissing/vasnprintf.c:400-794 | for all a and all b > 0 the result is a/b rounded half to even, normalised, within the room of a_len + 2 limbs that quotient and remainder share |
| Decimal.CanonicalUnique | libmissing/vasnprintf.c:839-843 | digits without a leading zero (and at least one digit) are determined by their value |
| Decimal.DivideByBillion | libmissing/vasnprintf.c:817-827 | division in place by 10^9 |
| Decimal.StoreNine | libmissing/vasnprintf.c:828-833 | nine digits are stored, low digit first, that denote the remainder |
| Decimal.StripZeroes | libmissing/vasnprintf.c:839-843 | removing leading zeroes keeps the value and at least one digit |
| Decimal.GroupsFit | libmissing/vasnprintf.c:807-808 | the loop makes at most floor(1.0704 * a_len) + 1 groups of nine digits, for every length |
| Decimal.ConvertToDecimal | libmissing/vasnprintf.c:802-848 | the digits are the decimal digits of a * 10^extra_zeroes without leading zeroes, and number at most 9 * (floor(1.0704 * a_len) + 1) + extra_zeroes |
| Scale10.PowerOfFive | libmissing/vasnprintf.c:1073-1100 | steps of 13 powers at a time give 5^abs_n, and the limbs allocated from the estimate 2.322 suffice |
| Scale10.ShiftInPlace | libmissing/vasnprintf.c:1101-1137 | bit shift and limb shift in place multiply by 2^abs_s within the limbs allocated |
| Scale10.PowerOfTwo | libmissing/vasnprintf.c:1169-1178 | the denominator 2^abs_s is built in the free part of the same array |
| Scale10.ShiftedNumerator | libmissing/vasnprintf.c:1184-1226 | the numerator is m * 2^abs_s |
| Scale10.ScaledFrom | libmissing/vasnprintf.c:1046-1060 | taking a power of ten out of the factors and appending zeroes afterwards does not change the result, since no rounding is involved then |
| Scale10.RoundTwoFive | libmissing/vasnprintf.c:1061-1230 | each of the four plans (multiply, divide, multiply then divide, shift then divide) gives m * 2^s * 5^n rounded half to even |
| Scale10.RoundDecimal | libmissing/vasnprintf.c:1028-1241 | for all m, e and n the digits denote m * 2^e * 10^n rounded half to even |
| Exponent.GuessTooLow | libmissing/vasnprintf.c:3884-3908 | if the first try has p + 2 digits, one exponent higher has p + 1 |
| Exponent.GuessTooHigh | libmissing/vasnprintf.c:3884-3908 | if the first try has p digits, one exponent lower has p + 1 |
| Exponent.FirstTryLength | libmissing/vasnprintf.c:3875-3893 | from a guess within the stated tolerance the first try has p to p + 2 digits |
| Exponent.NotBorderline | libmissing/vasnprintf.c:3909-3924 | unless the digits are 1 followed by zeroes, a smaller exponent gives too many digits |
| Exponent.Borderline | libmissing/vasnprintf.c:3910-3924 | in the case 10...0 one smaller exponent may do, and no other |
| Exponent.IsBorderline | libmissing/vasnprintf.c:1463-1473 | the scan finds exactly the digit strings of powers of ten |
| Exponent.LeastExponentUnique | libmissing/vasnprintf.c:3873-3926 | the least exponent for which the rounded value has p + 1 digits is unique, so the result does not depend on the guess |
| Exponent.ExponentDigits | libmissing/vasnprintf.c:3873-3926 | from any guess within the tolerance both aborts are unreachable, at most two exponents are tried in the loop, and the result has p + 1 digits and the least exponent for which there are that many; the %g loop at 4021-4074 is the same with p = precision - 1 |
| Layout.FixedDenotes | libmissing/vasnprintf.c:3827-3846 | what is read from digits, point and digits is the number that all the digits make up, with as many places as there are digits behind the point |
| Layout.PrintF | libmissing/vasnprintf.c:3821-3848 | the text of %f denotes m * 2^e rounded half to even to precision places, has exactly that many places, a point only if digits follow or # is given, and no superfluous leading zero |
| Layout.ExponentTextDenotes | libmissing/vasnprintf.c:3944-3983 | the exponent is written with its sign and two digits, or as many as it needs beyond 99, and denotes itself |
| Layout.FixedIsDecimal | libmissing/vasnprintf.c:3827-3846 | the characters: digits, of which the first is 0 only if it stands alone, and a point exactly if digits follow it or # is given |
| Layout.PrintE | libmissing/vasnprintf.c:3849-3983 | the text of %e has one digit before the point, which is not 0 for a positive number, precision places, a point only if digits follow or # is given, and denotes the value rounded to these digits, with the least exponent possible |
| Layout.CountZeroes | libmissing/vasnprintf.c:4076-4082 | the number of trailing zeroes |
| Layout.LayoutG | libmissing/vasnprintf.c:4084-4142 | there is no exponent in the text just when it is at least -4 and below the precision, and the point is moved instead; without # just the zeroes at the end of the fraction are dropped, with it none; the number denoted stays the same |
| Layout.PrintG | libmissing/vasnprintf.c:3985-4180 | the text of %g denotes the value rounded to precision significant digits, with the least exponent possible; the exponent is written exactly if it is below -4 or at least the precision |
| WaitQueue.Rotate | libmissing/glthread/lock.c:708-729 | the in-place unwrapping of the enlarged array puts the waiting events at the start, in order |
| WaitQueue.CircularQueue.Grow | libmissing/glthread/lock.c:702-732 | growing, also while the contents wrap around, keeps the queue |
| WaitQueue.CircularQueue.Add | libmissing/glthread/lock.c:697-744 | adding appends to the queue |
| WaitQueue.CircularQueue.NotifyFirst | libmissing/glthread/lock.c:747-755 | the first event is signalled and leaves the queue |
| WaitQueue.CircularQueue.NotifyAll | libmissing/glthread/lock.c:758-772 | all events are signalled in order and the queue is empty |
| HandoffLock.RwLock.RdLock | libmissing/glthread/lock.c:797-835 | a reader waits exactly if the runcount is negative, at the end of the queue of readers, and is otherwise counted |
| HandoffLock.RwLock.WrLock | libmissing/glthread/lock.c:851-888 | a writer waits exactly if the runcount is not 0, at the end of the queue of writers, and otherwise makes it -1 |
| HandoffLock.RwLock.UnLock | libmissing/glthread/lock.c:892-933 | unlocking a free lock is refused, an impossible runcount aborts; when nobody is left the writer that has waited longest is granted the lock and signalled, the others stay in order, or else all readers are signalled in order |
| HandoffLock.HandOffGood | libmissing/glthread/lock.c:914-930 | handing a free lock over makes owners of exactly the signalled threads, which leave their queue |
| HandoffLock.ResumeInv | libmissing/glthread/lock.c:810-821 | between critical sections a woken thread finds the runcount positive, or -1, so that it does not abort |
| HandoffLock.UnlockInv | libmissing/glthread/lock.c:892-933 | whoever holds the lock can unlock it without error or abort, and the invariant stays |
| HandoffLock.NextInv | libmissing/glthread/lock.c:784-933 | every step of every thread keeps the invariant |
| HandoffLock.EveryRun | libmissing/glthread/lock.c:784-933 | in every state of every run: the runcount is -1 exactly when one writer owns the lock (running or granted it) and otherwise the number of owning readers; a free lock has empty queues; the queues hold exactly the waiting threads; no thread has aborted |
| HandoffLock.MutualExclusion | libmissing/glthread/lock.c:784-933 | while a writer runs no other thread runs with the lock |
| HandoffLock.UnlockSucceeds | libmissing/glthread/lock.c:892-933 | in every run, unlocking by a holder succeeds and leaves either an owner or nobody waiting |
| HandoffLock.WritersInOrder | libmissing/glthread/lock.c:747-755 | in every run, while a writer waits no thread that came later gets the lock to write |
| HandoffLock.CanDrain | libmissing/glthread/lock.c:784-933 | no deadlock: from every state of every run all threads that have called the lock can get it and give it back, without any further call |
| HandoffSteps.CheckSimulates | libmissing/glthread/lock.c:815-821 | a woken thread that reads the runcount while another thread is in the middle of unlocking passes the check as well, whatever has been written so far |
| HandoffSteps.StepSimulates | libmissing/glthread/lock.c:892-933 | each single write or signal of unlocking leaves the lock as it was before, or takes it to where unlocking in one step does |
| HandoffSteps.EveryFineRun | libmissing/glthread/lock.c:784-933 | in every state of every run in such single steps no thread has aborted, granted readers see a positive runcount and granted writers -1, and each step does what a step of HandoffLock does |
| CondLock.RwLock.RdLock | libmissing/glthread/lock.c:156-173 | a reader gets in unless a writer holds the lock or waits for it, and is then counted; the fields keep saying who holds the lock and how many writers wait |
| CondLock.RwLock.WrLock | libmissing/glthread/lock.c:185-200 | a writer, on entry or after waking, gets in exactly when nobody holds the lock, and is otherwise counted among those who wait, once |
| CondLock.RwLock.UnLock | libmissing/glthread/lock.c:204-257 | unlocking fails exactly when nobody holds the lock; otherwise one holder less, and once there is none a writer is signalled if any waits, or else the readers are |
| CondLock.UnlockInv | libmissing/glthread/lock.c:204-257 | whoever holds the lock can unlock it without error, and the invariant stays whichever writers the signal wakes |
| CondLock.NextInv | libmissing/glthread/lock.c:147-257 | every step, spurious wake-ups included, keeps the invariant |
| CondLock.EveryRun | libmissing/glthread/lock.c:147-257 | in every state of every run: the runcount says who holds the lock; waiting_writers_count is the number of writers blocked or woken but not resumed; and a free lock with a blocked thread has a woken writer |
| CondLock.Progress | libmissing/glthread/lock.c:147-257 | unless all threads are idle some thread can take a step that brings them closer to it |
| CondLock.CanDrain | libmissing/glthread/lock.c:147-257 | no deadlock and no lost wake-up, as for the other lock |
| Once.NextInv | libmissing/glthread/lock.c:1019-1054 | every step keeps the invariant: the started counter is -1, plus one for the winner, plus the losers that have not yet undone their increment |
| Once.EveryRun | libmissing/glthread/lock.c:1019-1054 | in every state of every run the init function has been called at most once, no caller has returned before it finished, the inner lock exists before it is entered, and the final abort is unreachable |
| Once.NoDeadlock | libmissing/glthread/lock.c:1019-1054 | while a call is under way some caller can take a step other than another turn of the waiting loop |
| RecursiveLock.NextInv | libmissing/glthread/lock.c:391-449 | every read and write of a shared field keeps the invariant |
| RecursiveLock.EveryRun | libmissing/glthread/lock.c:406-425 | in every state of every run no two threads have the lock, its holder holds the mutex, depth is how often it has locked, and the unguarded comparison of owner with the own name is exact |
| RecursiveLock.Answers | libmissing/glthread/lock.c:427-441 | unlock fails with EPERM just for threads without the lock, lock fails with EAGAIN only at the limit of depth, EINVAL never occurs, and only the last unlock releases the mutex |
| Memchr.TestFindsZeroByte | libmissing/memchr.c:106-134 | (x - 0x01..01) & ~x & 0x80..80 is not zero just when some byte of x is zero, whatever the borrows do |
| Memchr.WordTest | libmissing/memchr.c:136-143 | the test on a longword xor c in every byte says whether one of its eight bytes is c |
| Memchr.LoadTest | libmissing/memchr.c:136-143 | so does the test on an aligned load from memory, for either byte order |
| Memchr.Search | libmissing/memchr.c:59-168 | for every alignment and length the result is the first place within n bytes that holds c, or none; loads are aligned and stay within the n bytes |
| Storage.Database.Select | plugins/format/classic/classic-get.c:766-774 | the selected rows in ascending order of _index, without the row of index -1 |
| Storage.Positions | plugins/format/classic/classic-get.c:766-774 | ascending indexes that are just 0 to n - 1 are the positions |
| Insert.InsertList | plugins/format/classic/classic-insert.c:236-251 | the loop over a list and the copy of its last element add exactly the rows of the list, and no key is inserted twice |
| Insert.InsertNode | plugins/format/classic/classic-insert.c:195-265 | a node and its addresses add exactly their rows |
| Insert.InsertUser | plugins/format/classic/classic-insert.c:321-373 | a user and its ids, with 0 in the unused parent columns, add exactly their rows |
| Insert.InsertProcess | plugins/format/classic/classic-insert.c:425-490 | a process, its arguments and its environment add exactly their rows; the last argument and variable are not copied |
| Insert.InsertService | plugins/format/classic/classic-insert.c:647-727 | a service and its web or SNMP part add exactly their rows |
| Insert.InsertAccess | plugins/format/classic/classic-insert.c:831-871 | a file access, its permissions and its user id add exactly their rows |
| Insert.InsertFile | plugins/format/classic/classic-insert.c:915-1059 | a file with all that belongs to it adds exactly its rows |
| Insert.InsertFiles | plugins/format/classic/classic-insert.c:1171-1187 | all files of a target, and the whole last file again under index -1 |
| Insert.InsertSource | plugins/format/classic/classic-insert.c:1063-1115 | a source and its parts add exactly their rows |
| Insert.InsertTarget | plugins/format/classic/classic-insert.c:1119-1190 | a target, its parts and its files add exactly their rows |
| Insert.InsertAnalyzer | plugins/format/classic/classic-insert.c:1194-1280 | an analyzer of an alert or a heartbeat adds exactly its rows |
| Insert.InsertAssessment | plugins/format/classic/classic-insert.c:1582-1621 | an assessment adds exactly its rows |
| Insert.InsertKind | plugins/format/classic/classic-insert.c:1858-1880 | the tool, overflow or correlation part adds exactly its rows; only correlation alerts get a copy of the last ident |
| Insert.InsertClassification | plugins/format/classic/classic-insert.c:1328-1374 | a classification and its references add exactly their rows |
| Insert.InsertAlert | plugins/format/classic/classic-insert.c:1827-1961 | storing an alert under a free ident adds exactly the rows of AlertRow, changes no other row, and never inserts a primary key twice |
| Insert.InsertHeartbeat | plugins/format/classic/classic-insert.c:1964-2037 | the same for heartbeats |
| Get.GetList | plugins/format/classic/classic-get.c:751-807 | reading a stored list gives its elements in order, whether or not the last one is stored twice |
| Get.GetNode | plugins/format/classic/classic-get.c:809-860 | reading back a stored node |
| Get.GetProcess | plugins/format/classic/classic-get.c:412-534 | reading back a stored process, with the arguments that are stored under the parent index after its conversion to char |
| Get.GetService | plugins/format/classic/classic-get.c:679-749 | reading back a stored service |
| Get.GetAccesses | plugins/format/classic/classic-get.c:1133-1188 | counting the accesses of a file and reading each one back |
| Get.GetFiles | plugins/format/classic/classic-get.c:1344-1444 | reading back the files of a target, in two passes |
| Get.GetSources | plugins/format/classic/classic-get.c:1446-1511 | reading back the sources of an alert, in two passes |
| Get.GetTargets | plugins/format/classic/classic-get.c:1513-1582 | reading back the targets of an alert, in two passes |
| Get.GetAnalyzers | plugins/format/classic/classic-get.c:862-938 | reading back the analyzers, with the index counted while reading |
| Get.GetKind | plugins/format/classic/classic-get.c:2117-2127 | reading back which special kind an alert is of |
| Get.GetAlert | plugins/format/classic/classic-get.c:2029-2132 | from a database that holds an alert among any other rows, exactly this alert is read back, up to the arguments looked up under a converted index; a missing alert is an error |
| Get.GetHeartbeat | plugins/format/classic/classic-get.c:2136-2176 | the same for heartbeats |
| Get.ArgsByIndex | plugins/format/classic/classic-get.c:412-416 | which arguments the i-th process gets: modulo 256, indexes below 128 stand for themselves, 255 for the last element, the others for nothing |
| Get.ReadsTheSame | plugins/format/classic/classic-get.c:412-416 | reading back gives the stored alert exactly when every process beyond the first 128 of its list has the arguments of the element that its converted index stands for; with at most 128 sources, targets and analyzers it always does |
| Get.LateArgumentsLost | plugins/format/classic/classic-get.c:412-416 | an example where it does not: the arguments of the 129th source are lost |
| RoundTrip.StoreAndReadAlert | plugins/format/classic/classic-get.c:2029-2132 | an alert that is stored and read back is the same, with at most 128 sources, targets and analyzers |
| RoundTrip.StoreAndReadHeartbeat | plugins/format/classic/classic-get.c:2136-2176 | the same for heartbeats |
| RoundTrip.ReadAmongOthers | plugins/format/classic/classic-get.c:2029-2132 | an alert is read back unchanged after other alerts and a heartbeat with the same ident have been stored and others deleted |
| Delete.DeleteAll | plugins/format/classic/classic-delete.c:52-57 | the statements together remove exactly the rows that one of them names |
| Delete.AlertQueriesExact | plugins/format/classic/classic-delete.c:68-109 | the 35 statements remove, of the rows that the tables can hold, exactly the alert rows with the given idents |
| Delete.HeartbeatQueriesExact | plugins/format/classic/classic-delete.c:113-129 | the 10 statements remove exactly the heartbeat rows with the given idents |
| Delete.AlertRowShaped | plugins/format/classic/classic-insert.c:1827-1961 | an alert is stored with the parent types that its tables allow |
| Delete.DeleteUndoesInsert | plugins/format/classic/classic-delete.c:68-109 | deleting an alert that was stored under a free ident restores the database |
| Delete.DeleteUndoesInsertOfHeartbeat | plugins/format/classic/classic-delete.c:113-129 | the same for heartbeats |
| Delete.OthersSurvive | plugins/format/classic/classic-delete.c:68-109 | deleting alerts leaves every other alert and all heartbeats as they are, also those with the same idents, and frees the idents |
| Delete.DeleteHeartbeatsIsolated | plugins/format/classic/classic-delete.c:113-129 | deleting heartbeats leaves all other rows as they are |
| Delete.InsertThenDelete | plugins/format/classic/classic-delete.c:68-109 | storing and deleting in a row leave the database as it was |
| Join.ResolveIndexes | plugins/format/classic/classic-sql-join.c:251-285 | the loop over the path yields one constraint on a parent column for each listed element before the last two, and one on _index from the last two |
| Join.SelectedUnfolds | plugins/format/classic/classic-sql-join.c:343-370 | a row meets the joined condition when it meets the parent type, the ident and each index in turn |
| Join.JoinExact | plugins/format/classic/classic-sql-join.c:127-285 | for every path except those to permissions the compiled condition selects, among all rows that the tables can hold, exactly the rows of the elements that the path denotes: the given position, the last element for -1, all positions if no index is given |
| Join.PermissionsSelected | plugins/format/classic/classic-sql-join.c:265-282 | a path to permissions selects those of all accesses of the file, and of the copy of the last access |
| Join.PermissionsExact | plugins/format/classic/classic-sql-join.c:265-282 | so it selects what it denotes exactly when no row of another access has a permission at the chosen position |
| Selection.PlaceInstances | plugins/format/classic/classic-sql-join.c:228-285 | the rows that a path denotes are those of its instances, the places with a position in each list for which the path gives no index; every such row has one instance |
| Selection.FoundIsStored | plugins/format/classic/classic-insert.c:1827-1961 | under the key of a place is stored what walking down the alert to that place finds, -1 being the last element; but nothing for -1 in the lists stored without a copy |
| Selection.FoundIsStoredInHeartbeat | plugins/format/classic/classic-insert.c:1964-2037 | the same for heartbeats |
| Selection.JoinFinds | plugins/format/classic/classic-sql-join.c:127-285 | in a database that holds an alert among any other messages, a path selects the row of each element that it stands for, with its payload, and no other row; it selects nothing if it asks for the last element of a list stored without a copy |
| Selection.PermissionsExactInAlert | plugins/format/classic/classic-sql-join.c:265-282 | a path to permissions selects just the elements that it stands for exactly when, of the accesses of the files in question, only those asked for have a permission at the positions in question and none of these is the last of its file |
| Selection.OneAccessSelectedTwice | plugins/format/classic/classic-sql-join.c:265-282 | an alert for which it fails: of one permission of one access both the row and the copy are selected |
| Selection.JoinFindsInHeartbeat | plugins/format/classic/classic-sql-join.c:127-285 | the same for heartbeats |
| Selection.OneRowEach | plugins/format/classic/classic-sql-join.c:127-285 | different elements that a path stands for are selected as different rows |
| Selection.StoreAndSelect | plugins/format/classic/classic-insert.c:1827-1961 | after an alert has been stored next to other messages every path selects just the elements that it stands for |
| Selection.StoreHeartbeatAndSelect | plugins/format/classic/classic-insert.c:1964-2037 | the same for heartbeats |
| Transaction.Sql.Query | src/requiemdb-sql.c:304-342 | a statement is sent once, after connecting if there is no connection; losing the connection closes it, and connecting forgets the transaction flag |
| Transaction.Sql.TransactionStart | src/requiemdb-sql.c:450-486 | BEGIN takes the lock and sets the flag only if it succeeds, and is refused inside a transaction |
| Transaction.Sql.TransactionEnd | src/requiemdb-sql.c:490-522 | outside a transaction an error; otherwise the flag is cleared and the lock released whatever becomes of COMMIT, which is sent on a new connection if the old one is gone |
| Transaction.Sql.TransactionAbort | src/requiemdb-sql.c:526-579 | outside a transaction an error; otherwise the flag is cleared and the lock released, and ROLLBACK is attempted unless the connection is closed and there is an error text; success is reported exactly if it was carried out |
| Transaction.Sql.SendDeletes | plugins/format/classic/classic-delete.c:50-57 | the loop stops at the first statement that does not succeed |
| Transaction.Sql.DeleteMessage | plugins/format/classic/classic-delete.c:42-65 | for every outcome of every statement the lock depth is as before, the statements are those stated for the two modes, and the transaction flag is as before except after connecting again inside the caller's transaction |
| Transaction.DeletionAtomic | plugins/format/classic/classic-delete.c:42-65 | seen from the server, either all deletes become permanent or none, and all of them when success is reported |
| Transaction.BareDeletion | plugins/format/classic/classic-delete.c:42-65 | inside the caller's transaction no delete becomes permanent as long as the connection is still the one it was begun on; after connecting again every delete carried out is permanent at once |
| CopyMove.Engine.FlushIfNeeded | requiemdb-admin.c:200-216 | a full or ended batch is committed and counted, and a new transaction begun; with no events per transaction nothing happens |
| CopyMove.Engine.FetchIdents | requiemdb-admin.c:283-298 | the next batch is the window after what has been copied, no larger than a transaction or the remaining limit |
| CopyMove.Engine.CopyIterate | requiemdb-admin.c:588-648 | a batch is added to the destination as a whole, or not at all; for a move it is deleted from the source; every message is safe after each step if the batch does not fill the table, and not if it does and nothing fails |
| CopyMove.Engine.Transfer | requiemdb-admin.c:652-703 | a copy adds exactly curCount messages from the offset on, in order, never more than the limit, and all of them if it ends normally; so does a move, of distinct messages, and the source loses these and no others; the command ends after the batch in which the user interrupts it |
| CopyMove.CopyAndResume | requiemdb-admin.c:1220-1222 | after an error or an interruption the copy is continued with the offset that was reported: n messages are added, every one once and in order, and if the second run is undisturbed the copy is complete |
| CopyMove.Engine.CopyMessage | requiemdb-admin.c:602-635 | a message is added and its ident noted; a full table is deleted from the source, ahead of the commit, and if that fails the event is not counted |
| CopyMove.Engine.FinishBatch | requiemdb-admin.c:637-645 | what is left of a batch is committed before it is deleted, so that nothing is lost sight of |
| CopyMove.Move | requiemdb-admin.c:588-703 | a whole move of distinct messages: the destination gets n of them from the offset on, in order, and the source loses these and no others, or a part of these after an error; n is the limit or all there are if nothing fails; then every message has been in one of the databases at each step exactly if the first batch has fewer messages than the table has entries |
| CopyMove.SafeTransactions | requiemdb-admin.c:618-634 | no batch fills the table just when transactions have fewer events than it has entries |
| PrintfParse.Xsum | libmissing/xsize.h:61-69 | the wrap-around test computes the sum, cut off at SIZE_MAX |
| PrintfParse.Xtimes | libmissing/xsize.h:91-92 | the quotient test computes the product, cut off at SIZE_MAX |
| PrintfParse.ParsePosition | libmissing/printf-parse.c:152-174 | a position as Directives.PositionHere has it: digits and $ give the index, one less than their value, and 0 or a value that does not fit is an error |
| PrintfParse.RegisterArg | libmissing/printf-parse.c:101-129 | the argument gets the type, slots before it stay untyped, and a second type is an error |
| PrintfParse.Register | libmissing/printf-parse.c:101-129 | registering keeps all types that are known and fails just for a slot with another type |
| PrintfParse.ParseField | libmissing/printf-parse.c:213-326 | a width or precision: a star with its argument, or digits |
| PrintfParse.ParseDirective | libmissing/printf-parse.c:136-555 | a directive and the registration of its arguments in the order width, precision, value, as Directives.DirectiveScanned spells it out |
| PrintfParse.Parse | libmissing/printf-parse.c:80-592 | the whole parser does what its specification says: directives, argument types and the two maxima, or an error |
| Directives.TypeByLetters | libmissing/printf-parse.c:328-545 | the type of the argument for every conversion and every run of size letters: h once and twice, l, j, z and t once, twice or L |
| Directives.PositionHere | libmissing/printf-parse.c:152-174 | digits and $ denote the argument whose index is the value less 1; 0 and values of SIZE_MAX or more are errors |
| Directives.DirectiveScanned | libmissing/printf-parse.c:136-555 | what becomes of each part of a directive, given as characters: position, flags, width, precision, size letters and conversion; an unknown conversion is an error |
| Directives.BadPositionRefused | libmissing/printf-parse.c:152-174 | a directive whose position is 0 or does not fit is refused |
| Directives.ParseOne | libmissing/printf-parse.c:80-592 | the parser on a format of one directive: success exactly for the known conversions, and the types of all arguments |
| Directives.FormatParsed | libmissing/printf-parse.c:80-592 | a format of literals and directives that take their arguments in turn is parsed exactly if all conversions are known, and then every directive is found where it stands |
| FormatFacts.FormatSplits | libmissing/printf-parse.c:131-587 | on success the format is literals without % and directives in turn |
| FormatFacts.JoinedIsFormat | libmissing/printf-parse.c:131-587 | which put together are the format |
| FormatFacts.ArgumentsRegistered | libmissing/printf-parse.c:101-129 | every argument that some directive uses is below the count and has the one type that all its uses need |
| FormatFacts.SequentialFormat | libmissing/printf-parse.c:240-248 | a format without positions uses the arguments 0, 1, 2 and so on, and types each of them, without a gap |
| FormatFacts.MaximaReached | libmissing/printf-parse.c:216-265 | the two maxima bound all widths and precisions and are reached |
| FormatFacts.BuildSubFormat | libmissing/vasnprintf.c:4697-4832 | the format built for snprintf, with %n and NUL, fits the buffer of 7 + max_width_length + max_precision_length + 6 characters |
| Directives.LettersByType | libmissing/vasnprintf.c:4768-4796 | which size letters an argument has in the format for snprintf |
| FormatFacts.RoomIsReached | libmissing/vasnprintf.c:1513-1515 | and may need all of it |
| Reparse.ScanWritten | libmissing/printf-parse.c:136-555 | parsing a directive that has been written from its parts gives the parts back |
| Reparse.SubFormatReparses | libmissing/vasnprintf.c:4697-4832 | the format built for snprintf parses, as a whole, to a directive with the same flags, width, precision and conversion and the promoted type, taking its arguments in the order in which snprintf is given them |

## Left out

- Memory: allocation failures, reallocation and freeing. The arrays have the sizes that the code allocates.
- Decimal.ConvertToDecimal: the bound counts the digits, as the code's size does; the terminating NUL is not part of the buffer in the model.
- Decimal.GroupsFit: the float estimate 0.03345 for a bit, 1.0704 for a limb, is an exact rational number; how its product rounds as a C float is not modelled.
- Scale10.PowerOfFive: likewise for the float estimate 2.322.
- The decoding of doubles, floorlog10 and %a: mantissa, exponent and a guess within the tolerance are inputs. Exponents and precisions are unbounded integers.
- Infinities, NaN, the sign, padding to the width and the locale's decimal point in the printed text; sprintf of the exponent is modelled by its result.
- Divide.Divide: division by zero, which aborts in the code, is excluded.
- Printf arguments are not fetched, the system's snprintf is not modelled, and running out of memory in the parser is not either; the wide-character and unistdio variants of the parser are left out, and long, intmax_t, size_t and ptrdiff_t are taken to have the same size.
- PrintfParse.Parse: the array of directives and the array of arguments are sequences, so that their growth by doubling is not modelled.
- Memchr.Search: longwords have 8 bytes; the code also works with other sizes.
- Locks: memory accesses are sequentially consistent, calls to the mutex, the condition variables and the events succeed, counters do not overflow, and a thread has at most one hold on a read-write lock; only holders unlock.
- HandoffLock.EveryRun: the path taken when no event can be created, the lazy initialisation of the static locks and destroying a lock are not modelled. Fairness is not claimed: readers may overtake waiting writers.
- RecursiveLock.EveryRun: thread 0, which stands for no owner, is taken not to exist.
- The other variants of the locks in the same file (for other thread libraries) are left out.
- SQL texts, escaping, the conversion of scalar columns and the drivers: a row has a primary key and an opaque payload, and inserting a taken key is excluded by proof. The ranges of the index columns, which differ between databases, are not modelled, nor is linkage.file, which the code does not store.
- A file access has a user id, as RFC 4765 has it; the code passes a missing one on to the getters of the IDMEF library, which are not part of this model.
- Insert.InsertAlert: all statements succeed. Some results are ignored in the code, so atomicity is claimed for deletion only. The ident is a parameter; in the code it comes from an automatic column.
- Get.ReadsTheSame: char is taken to be signed and to have 8 bits; where it is unsigned the arguments are read back under the index modulo 256, so that the first index to go wrong is 256.
- Get.GetAlert: what is returned is stated for a database that holds some alert under the ident. A missing creation time or user id is read as an empty payload.
- Join.JoinExact: the lists of joined tables and sharing a table between paths are left out, as are functions and criteria in selections.
- Delete.DeleteAll: idents are a set; building the text of the list is not modelled.
- CopyMove.Engine.Transfer: commits and the beginning of transactions in the destination succeed. Offsets and limits are unbounded integers. Statistics and the other commands are left out.
- CopyMove.Engine.CopyIterate: a move by batches of more than 1024 messages is modelled only as long as nothing fails; what the code does when the table has no room after a failed deletion is not part of this model.
- Plugin tables, settings, error texts, bindings and the header replacements of the portability library.
