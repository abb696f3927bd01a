# rtp2httpd: verified model of the streaming core

rtp2httpd turns multicast RTP into HTTP streams. This project models the algorithms of its core in Dafny and proves
what they promise: an erasure decoder over GF(256), a streaming decoder for the chunked transfer coding, the RTP reorder
window, reference-counted buffers and send queues, the shared multicast source, the table of parity groups, and the
protocol for fast channel change.

`dafny verify dfyconfig.toml` checks everything.

## Files

| file | models |
|---|---|
| `sequences.dfy` | sequences without repetition, used throughout |
| `gf256.dfy`, `linear_algebra.dfy` | GF(256) as polynomials modulo 0x11d, vectors and matrices over it |
| `gf_tables.dfy` | the power and logarithm tables |
| `exchange.dfy`, `matrix_inversion.dfy` | Gauss-Jordan inversion in place, with full pivoting and column unscrambling |
| `vandermonde.dfy`, `erasures.dfy`, `rs_fec.dfy` | the systematic code, which loss patterns it repairs, and packet recovery |
| `cauchy.dfy`, `captured_code.dfy` | generators of the form u v / (x + y), and the captured one, which is of that form |
| `chunked_decoder.dfy`, `chunked_grammar.dfy`, `chunked_rfc.dfy` | the byte machine of the chunked decoder, the grammar it accepts, and how that compares with the standard's |
| `chunked_hex.dfy` | which numbers the digits of a size stand for, and how a body is encoded |
| `reorder_model.dfy`, `rtp_reorder.dfy` | the reorder window on unwrapped numbers, and the ring buffer that implements it |
| `fec_reorder.dfy`, `fec_ring.dfy` | the ring once parity is in use and delivered packets stay in their slots, as a value and in its arrays |
| `fec_run.dfy` | runs of that ring: nothing goes out of place as long as expired groups release their packets in time |
| `epochs.dfy` | that the choice among numbers 65536 apart does not matter |
| `handoff.dfy` | when a private window and the shared one stand at the same place |
| `buffer_pool.dfy` | reference counts, views, and the growing and shrinking segmented pool |
| `send_queue.dfy`, `connection.dfy` | the send queue as a linked list with partial writes, and the output of a connection |
| `fec_groups.dfy` | the table of parity groups with its cached earliest end |
| `delivery_log.dfy` | a source and a subscriber as values: what a run of packets does to them, and what a subscriber is handed, in order |
| `joining.dfy` | when joining the shared output at another number keeps the order |
| `multicast.dfy` | private and shared output, batching, promotion, and the registry of sources, proved against those values |
| `receive_list.dfy` | the list of timed receives |
| `fcc.dfy` | fast channel change as a state machine driven by arbitrary events |
| `fcc_wire.dfy` | the answers of its servers as messages and as bytes |
| `switching.dfy` | fast channel change, a subscriber and its source together: from unicast to the shared output as one stream |

## How the model is built

Code that works in place stays imperative: arrays for matrices, tables, packets, ring slots and the group table, classes with the
source's fields for decoders, windows, pools, queues, sources and sessions, and linked nodes where the links are the point
(send queue, receive list). Each such method is proved against a function or an invariant on values, and the
lemmas are about those. What the outside world decides is a parameter: the answer of the kernel to a write, whether memory
is available, whether a queue has room, the time. Bytes of the field are eight booleans, so addition is exclusive or bit by bit, and machine words only in the captured tables; 16-bit
numbers are integers below 65536 with a signed difference modulo 2^16; reorder windows carry an unwrapped base besides. Which of the numbers 65536 apart a packet is
taken for is a matter of naming: a new window is told near which number the stream stands, and `Epochs.SameRun` shows that nothing else depends on it. Where two windows are
compared, their names are taken to be less than half the space apart, as 16-bit numbers can tell no more.

Preconditions follow what the callers guarantee: a code has at most 255 parity packets because the count is one byte in the packet
(`opd/rtp2httpd/src/rtp_fec.c:250`), and loss maps hold 0 or 1. While packets are first collected their numbers are assumed to span less
than one window (`ReorderModel.Orderly`, `DeliveryLog.Tame`); without that the ring is still memory safe, and no order is claimed.

In `multicast.dfy` every source and every subscriber has a reorder window as a value, the one that `rtp_reorder.dfy` implements. The ghost
log of a source lists what it appended, and each subscriber has a line: what it had been sent at its start, what it was handed by
itself, and where in the log it came in. `AsGroup` and `Stand` are a source and a subscriber as values of `delivery_log.dfy`; the methods are proved to do what
`GroupNext`, `MemberNext` and their folds do, and what holds over runs is proved there. `Multicast.Source.OneStream` says what the lines mean; `missed` and `clean` mark the subscribers of which
nothing more is said (a full queue, a snapshot, parity, numbers collected too far apart, or joining at another number). What a subscriber can be refused
is a function of how much it was sent, so it can change from one payload to the next.

## Where the code differs from what one might expect

- The erasure code does not repair every pattern when data and parity packets together exceed 255, because the evaluation points come
  round again; `Erasures.RepairsAllExactly` gives the exact condition.
- The chunked decoder does not take every chunk extension of RFC 9112: section 7.1 allows blanks before a semicolon, and the decoder takes none between
  the digits and the first one. `ChunkedRfc.RfcAccepted` gives the exact condition, `ChunkedRfc.BlankRejected` an input. In the other direction it
  takes any printable bytes as an extension (`ChunkedGrammar.AcceptsExactly`).
- Once a parity packet has come in, delivered packets stay in their slots, and a number that is missing a window later is served from there:
  `FecReorder.Replay` has an input that hands a packet over twice, `FecReorder.InsertExact` says exactly when that happens, from the ring beforehand, and `FecReorder.ReleasedIsRight` that
  releasing them in time prevents it, over whole runs `FecRun.RunIsRight`. The promise of a gapless way back from shared to private output holds as long as parity stays out
  of use (`RtpReorder.Reorder.CopyFrom`, `Multicast.Source.EnablePrivateFec`).
- A bare payload promotes a subscriber whatever its window says (`opd/rtp2httpd/src/multicast.c:746`). In a source that mixes numbered and bare packets that can
  repeat numbers: `DeliveryLog.BareReplays` reaches such a state from new windows. Joining a window that delivers keeps the order if and only if the last number handed over
  before is behind its base, by the signed difference of the 16-bit numbers (`Joining.JoiningExactly`); `Joining.JoiningCollecting` and `Joining.JoiningNew` say the same of a
  window that still collects and of a new one. Standing at the same number (`DeliveryLog.Follows`) is what numbered packets ensure, and enough for the account that counts
  losses as well (`DeliveryLog.AccountedElsewhere`).
- The comment at `opd/rtp2httpd/src/rs_fec.c:31` calls the last row of the captured table independent. It follows the same law as the others
  (`CapturedCode.CapturedIsCauchy`): each coefficient is a product of a factor of its row and one of its column, divided by the exclusive or of the numbers of the two packets,
  which makes it a Reed-Solomon code that repairs any five losses (`CapturedCode.CapturedDecodable`).
- The comparison that decides whether expired parity groups are looked for misses some when their ends are far apart and the base is half the sequence space
  past the earliest: `FecGroups.FiresExactly` says exactly when, and `FecGroups.SpreadReached` and `FecGroups.JumpsReach` lead there.
- A file that is shorter than the size it was queued with holds up its connection: each write takes nothing and reports no error
  (`Connection.CutShortBlocks`).
- The counter of the reorder window is not the number of packets held. A duplicate of the packet waiting at base is counted twice
  (`ReorderModel.CountDrift`), and from then on a subscriber with a private window is not moved to shared output
  (`Handoff.StaysPrivate`). After fast channel change a packet held at the base at the switch has the same effect, since its multicast copy still waits
  (`Switching.JoinsAfterSwitch`); the stream has no gap either way.
- While packets are collected, numbers further apart than the window are accepted (`ReorderModel.CollectExactly`, `ReorderModel.FarCollectBreaks`).
- When the oldest parity group is evicted and the new one cannot be allocated, the cached earliest end is not recomputed. It is then at
  worst too early, never too late (`FecGroups.Context.FindOrCreate`).
- The comment at `opd/rtp2httpd/src/fcc_huawei.c:227` speaks of bit 5 of a flag byte. The expression compares all three upper bits with 001,
  since the shift is done in `int`; `Fcc.Session.AcceptNat` follows the code.

## Model

| member | source | states |
|---|---|---|
| `Gf256.ExpAdd` | opd/rtp2httpd/src/rs_fec.c:148-155 | powers of the generator multiply by adding exponents: alpha^m * alpha^n = alpha^(m+n), with multiplication taken from polynomials modulo 0x11d |
| `Gf256.ExpMod` | opd/rtp2httpd/src/rs_fec.c:148-155 | exponents count modulo 255, which is what the reduction used with the tables needs |
| `Gf256.ExpDistinct` | opd/rtp2httpd/src/rs_fec.c:71-90 | the 255 powers are pairwise different, so the logarithm table is well defined |
| `Gf256.ExpSurjective` | opd/rtp2httpd/src/rs_fec.c:86-89 | every nonzero byte is one of the 255 powers, so the logarithm table is complete |
| `Gf256.MulAssoc` | opd/rtp2httpd/src/rs_fec.c:71-90 | multiplication is associative, for all bytes |
| `Gf256.MulComm` | opd/rtp2httpd/src/rs_fec.c:71-90 | multiplication is commutative, for all bytes |
| `Gf256.MulAddLeft` | opd/rtp2httpd/src/rs_fec.c:71-90 | multiplication distributes over exclusive or, for all bytes |
| `Gf256.MulNonzero` | opd/rtp2httpd/src/rs_fec.c:71-90 | there are no zero divisors |
| `Gf256.MulInv` | opd/rtp2httpd/src/rs_fec.c:71-90 | every nonzero byte has a multiplicative inverse |
| `GfTables.Tables.constructor` | opd/rtp2httpd/src/rs_fec.c:71-90 | after filling, entry i of the power table is alpha^i, and the logarithm table inverts it |
| `GfTables.Tables.FillExp` | opd/rtp2httpd/src/rs_fec.c:78-85 | the shift-and-reduce loop computes the powers of alpha |
| `GfTables.Tables.TimesIsMul` | opd/rtp2httpd/src/rs_fec.c:173-174 | the table product, zero cases included, is the polynomial product modulo 0x11d |
| `GfTables.Tables.OverIsMulInv` | opd/rtp2httpd/src/rs_fec.c:144-148 | division through the tables is multiplication by the inverse |
| `GfTables.Tables.AccumulateIsAdd` | opd/rtp2httpd/src/rs_fec.c:154-155 | the guarded multiply-and-xor step adds a product |
| `Exchange.StartRepresents` | opd/rtp2httpd/src/rs_fec.c:99-113 | before the first pivot the matrix maps inputs to outputs as given |
| `Exchange.SwapRepresents` | opd/rtp2httpd/src/rs_fec.c:135-138 | swapping two rows renames two outputs and keeps the relation between all inputs and outputs |
| `Exchange.PivotRepresents` | opd/rtp2httpd/src/rs_fec.c:141-156 | one elimination round exchanges one input with one output and keeps the relation, for every matrix |
| `Exchange.NoPivotSingular` | opd/rtp2httpd/src/rs_fec.c:117-143 | when no pivot is left in the open rows and columns, some nonzero vector is mapped to zero |
| `Exchange.AllPivotedSolves` | opd/rtp2httpd/src/rs_fec.c:116-157 | after all rounds the matrix solves for the inputs, up to the order of the outputs |
| `Exchange.SwapColumnsSolves` | opd/rtp2httpd/src/rs_fec.c:159-163 | a column swap of the last loop undoes one row swap |
| `MatrixInversion.FindPivot` | opd/rtp2httpd/src/rs_fec.c:117-133 | the search finds a nonzero entry in an open row and an open column, or there is none |
| `MatrixInversion.SwapRows` | opd/rtp2httpd/src/rs_fec.c:135-138 | two whole rows change places, nothing else |
| `MatrixInversion.DividePivotRow` | opd/rtp2httpd/src/rs_fec.c:144-148 | the pivot row is divided by the pivot, whose own place gets the inverse |
| `MatrixInversion.ReduceRow` | opd/rtp2httpd/src/rs_fec.c:149-156 | a row loses its multiple of the pivot row |
| `MatrixInversion.PivotRound` | opd/rtp2httpd/src/rs_fec.c:116-157 | one round keeps the exchange invariant and records its swap |
| `MatrixInversion.Unscramble` | opd/rtp2httpd/src/rs_fec.c:159-163 | undoing the recorded swaps from last to first leaves the inverse |
| `MatrixInversion.MatrixInv` | opd/rtp2httpd/src/rs_fec.c:99-166 | in-place inversion: for sizes 1 to 255 it fails exactly on singular matrices, and otherwise both products with the input are the identity |
| `MatrixInversion.InverseIsProduct` | opd/rtp2httpd/src/rs_fec.c:99-166 | an inverse on one side is an inverse on the other side, as products |
| `Vandermonde.FactorTheorem` | opd/rtp2httpd/src/rs_fec.c:238-250 | a polynomial splits into its value at a point plus a multiple of the distance to the point |
| `Vandermonde.TooManyRoots` | opd/rtp2httpd/src/rs_fec.c:238-250 | a polynomial of degree below k with k distinct roots is zero |
| `Vandermonde.PowerRowsIndependent` | opd/rtp2httpd/src/rs_fec.c:238-250 | rows of powers at distinct points are independent |
| `Vandermonde.PowerMatrixNonsingular` | opd/rtp2httpd/src/rs_fec.c:246-253 | the square matrix of powers that the generator inverts is nonsingular for k up to 255 |
| `Vandermonde.AnyRowsNonsingular` | opd/rtp2httpd/src/rs_fec.c:238-261 | any k rows of the systematic code at distinct points are independent |
| `Erasures.Dichotomy` | opd/rtp2httpd/src/rs_fec.c:99-166 | every square matrix is singular or has an inverse |
| `Erasures.TooFewReceived` | opd/rtp2httpd/src/rs_fec.c:324-352 | with fewer than k packets nothing is decodable |
| `Erasures.EnoughReceived` | opd/rtp2httpd/src/rs_fec.c:324-352 | with k + m at most 255, a loss pattern is decodable exactly when at least k packets arrived |
| `Erasures.RepairsAllExactly` | opd/rtp2httpd/src/rs_fec.c:179-267 | the code repairs every pattern with k packets if and only if k is 1 or k + m is at most 255 |
| `Erasures.RepeatedPointPattern` | opd/rtp2httpd/src/rs_fec.c:238-244 | beyond 255 packets a concrete loss pattern with k packets received cannot be decoded |
| `Erasures.SingleLossExactly` | opd/rtp2httpd/src/rs_fec.c:324-352 | with any generator, one lost data packet and the first parity packet at hand, decoding succeeds exactly when that parity packet depends on the lost one |
| `RsFec.FillPowers` | opd/rtp2httpd/src/rs_fec.c:238-250 | the loops fill the rows of powers |
| `RsFec.MatrixMul` | opd/rtp2httpd/src/rs_fec.c:168-177 | the triple loop adds the matrix product to the target |
| `RsFec.New` | opd/rtp2httpd/src/rs_fec.c:179-277 | for 100 data and 5 parity packets the captured generator is installed, otherwise a computed one; none is built when k is 0 or above 255 |
| `RsFec.NewComputed` | opd/rtp2httpd/src/rs_fec.c:218-268 | the computed generator is systematic: its rows evaluate, at the points k to k + m - 1, the polynomial through the data |
| `RsFec.NewCaptured` | opd/rtp2httpd/src/rs_fec.c:210-216 | the loops install the coefficients of the captured tables |
| `Cauchy.BlendAtData` | opd/rtp2httpd/src/rs_fec.c:324-390 | for any generator whose entries are u v / (x + y): the polynomial made of a data vector vanishes at the point of a data packet exactly when that packet is zero |
| `Cauchy.BlendAtParity` | opd/rtp2httpd/src/rs_fec.c:324-390 | and at the point of a parity packet it is, but for factors that are not zero, the parity of the data |
| `Cauchy.CauchyDecodable` | opd/rtp2httpd/src/rs_fec.c:324-390 | with such a generator over distinct points a loss pattern is decodable exactly when at least k packets arrived |
| `CapturedCode.ProductIs` | opd/rtp2httpd/src/rs_fec.c:71-90 | the product of two bytes as machine words is the product of the field |
| `CapturedCode.CapturedIsCauchy` | opd/rtp2httpd/src/rs_fec.c:28-65 | the captured tables are of that form, with the number of each packet as its point: five rows, one hundred columns, the last row included |
| `CapturedCode.CapturedDecodable` | opd/rtp2httpd/src/rs_fec.c:210-216 | the captured code decodes any 100 of its 105 packets, whichever are lost, and no fewer |
| `RsFec.Promises` | opd/rtp2httpd/src/rs_fec.c:179-390 | what both kinds of generators promise: the captured one, and a computed one with k + m at most 255, decode exactly when at least k packets arrived |
| `RsFec.CollectData` | opd/rtp2httpd/src/rs_fec.c:324-335 | unit rows for received packets, and the list of the lost ones |
| `RsFec.CollectParity` | opd/rtp2httpd/src/rs_fec.c:337-346 | generator rows of received parity packets fill up the rows that are missing |
| `RsFec.GatherReceived` | opd/rtp2httpd/src/rs_fec.c:361-372 | the packets used are those whose rows were chosen, in the same order |
| `RsFec.RecoveredByte` | opd/rtp2httpd/src/rs_fec.c:374-383 | a row of the inverse applied to the received bytes gives the original byte |
| `RsFec.RecoverPacket` | opd/rtp2httpd/src/rs_fec.c:374-383 | the nested loops write exactly that combination into a lost packet |
| `RsFec.Invert` | opd/rtp2httpd/src/rs_fec.c:324-359 | the rows of the packets at hand are inverted exactly when the pattern is decodable, and the lost data packets are listed |
| `RsFec.Decode` | opd/rtp2httpd/src/rs_fec.c:287-390 | for all k, m, lengths and loss maps: 0 is returned exactly when the pattern is decodable, and for the captured code and a computed one of at most 255 packets exactly when at least k packets arrived; then every packet holds its original bytes, and received packets and bytes beyond the length never change |
| `ChunkedDecoder.RunConcat` | opd/rtp2httpd/src/http_chunked_decoder.c:39-185 | decoding one piece after another is decoding them joined, state and data |
| `ChunkedDecoder.SplitInvariance` | opd/rtp2httpd/src/http_chunked_decoder.c:39-185 | however an input is cut, empty pieces included, the final fields and all data handed on are those of a single call |
| `ChunkedDecoder.RunData` | opd/rtp2httpd/src/http_chunked_decoder.c:102-112 | a stretch of chunk data taken at once equals its bytes taken one at a time |
| `ChunkedDecoder.RunGood` | opd/rtp2httpd/src/http_chunked_decoder.c:39-185 | inside chunk data something always remains, so the loop always moves on |
| `ChunkedDecoder.Decoder.Feed` | opd/rtp2httpd/src/http_chunked_decoder.c:39-185 | the loop agrees with the byte-by-byte machine: fields, result, data handed on, and where an error is reported |
| `ChunkedDecoder.Decoder.Advance` | opd/rtp2httpd/src/http_chunked_decoder.c:57-174 | one byte outside chunk data, with every limit and error case; which number a digit counts for is the subject of `ChunkedHex.HexExactly` |
| `ChunkedDecoder.Decoder.Finish` | opd/rtp2httpd/src/http_chunked_decoder.c:187-194 | the end of input is accepted only after the last chunk, and is an error otherwise |
| `ChunkedDecoder.DoneFails` | opd/rtp2httpd/src/http_chunked_decoder.c:165-174 | any byte after the end is an error |
| `ChunkedGrammar.GrammarAccepted` | opd/rtp2httpd/src/http_chunked_decoder.c:57-174 | every message of the decoder's own grammar, in which an extension is any printable bytes after a semicolon, is accepted with exactly its body |
| `ChunkedGrammar.ParseMessage` | opd/rtp2httpd/src/http_chunked_decoder.c:57-174 | whatever is accepted is a message of that grammar |
| `ChunkedGrammar.AcceptsExactly` | opd/rtp2httpd/src/http_chunked_decoder.c:57-194 | the decoder ends done exactly on that grammar: sizes up to 2^64 - 1, size lines up to 4096, trailers up to 8192 bytes |
| `ChunkedGrammar.DecodesInPieces` | opd/rtp2httpd/src/http_chunked_decoder.c:39-194 | an encoded message cut into any pieces decodes to its body |
| `ChunkedGrammar.BodyUnique` | opd/rtp2httpd/src/http_chunked_decoder.c:57-174 | two readings of the same bytes have the same body |
| `ChunkedHex.HexExactly` | opd/rtp2httpd/src/http_chunked_decoder.c:4-12 | a byte is read as a number below 16 exactly when it is the digit of that number in 0123456789abcdef or 0123456789ABCDEF, and as no digit exactly when it is in neither |
| `ChunkedHex.HexRead` | opd/rtp2httpd/src/http_chunked_decoder.c:63-68 | every number written in hexadecimal, each digit in either case, is read as that number |
| `ChunkedHex.EncodedDecodes` | opd/rtp2httpd/src/http_chunked_decoder.c:39-185 | a body cut into chunks that are not empty, up to 2^64 - 1 bytes each, and written with their sizes in hexadecimal is decoded to that body, in however many pieces it comes |
| `ChunkedRfc.RfcAccepted` | opd/rtp2httpd/src/http_chunked_decoder.c:57-174 | a message as section 7.1 of RFC 9112 writes it, within the limits, is decoded to its body if and only if no size line has a blank between its digits and its first semicolon; otherwise it ends in an error |
| `ChunkedRfc.BlankRejected` | opd/rtp2httpd/src/http_chunked_decoder.c:57-79 | a concrete message that the standard allows and the decoder rejects |
| `ChunkedRfc.PlainLine` | opd/rtp2httpd/src/http_chunked_decoder.c:81-93 | every extension of the standard, quoted strings included, is made of bytes the decoder lets pass |
| `ChunkedRfc.PassedExactly` | opd/rtp2httpd/src/http_chunked_decoder.c:81-93 | what may stand in an extension is exactly the blanks, the visible characters and the bytes above the ASCII range |
| `ReorderModel.FlushAdvances` | opd/rtp2httpd/src/rtp_reorder.c:96-139 | a flush delivers exactly the packets it passes, loses none, and stops at a gap or when the counter says empty |
| `ReorderModel.ForceFlushAdvances` | opd/rtp2httpd/src/rtp_reorder.c:142-175 | making room delivers what is held on the way, counts the other numbers as lost, and stops as soon as the target fits |
| `ReorderModel.InsertAdvances` | opd/rtp2httpd/src/rtp_reorder.c:225-304 | one arrival in the active phase: what is delivered is what was stored below the new base, in order, and base moves by deliveries plus losses |
| `ReorderModel.ActivationAdvances` | opd/rtp2httpd/src/rtp_reorder.c:197-223 | delivery starts at the smallest number collected and skips nothing |
| `ReorderModel.CollectExactly` | opd/rtp2httpd/src/rtp_reorder.c:197-210 | collecting keeps all numbers in one window if and only if the slot is taken or the number is near; the condition the caller owes |
| `ReorderModel.FarCollectBreaks` | opd/rtp2httpd/src/rtp_reorder.c:197-210 | a concrete pair of numbers that leaves the window while collecting |
| `ReorderModel.InsertSound` | opd/rtp2httpd/src/rtp_reorder.c:177-305 | every held number lies in [base, base + window) after any arrival that, while packets are collected, is near those collected; in the active phase after any at all |
| `ReorderModel.RunOrdered` | opd/rtp2httpd/src/rtp_reorder.c:96-305 | over any run, from a new window through collecting into the active phase: nothing is delivered before; then numbers strictly increase, also across 16-bit wrap-around, and from the first one on base advances by deliveries plus losses |
| `ReorderModel.StepInOrder` | opd/rtp2httpd/src/rtp_reorder.c:177-305 | every arrival keeps that, in each phase |
| `ReorderModel.StartInOrder` | opd/rtp2httpd/src/rtp_reorder.c:197-223 | the packets delivered when collecting ends are a gapless stretch from the smallest number on |
| `ReorderModel.ActiveIsOrderly` | opd/rtp2httpd/src/rtp_reorder.c:225-304 | once delivery has started nothing is owed by the caller |
| `ReorderModel.HeldFate` | opd/rtp2httpd/src/rtp_reorder.c:177-305 | from any window, collecting ones included, base never passes a held packet without delivering it; only a packet of the same number can take its place |
| `ReorderModel.DeliveredOrigin` | opd/rtp2httpd/src/rtp_reorder.c:177-305 | in a run from any window every delivered packet arrived, under the number it is delivered as |
| `ReorderModel.CountDrift` | opd/rtp2httpd/src/rtp_reorder.c:237-244 | the counter runs ahead of the packets held by one exactly when a duplicate replaces the packet at base |
| `Epochs.SameRun` | opd/rtp2httpd/src/rtp_reorder.c:177-305 | full numbers are a matter of naming: windows whose numbers differ by whole rounds of 65536 hand over, give up and hold the same packets over any run |
| `Epochs.AnyEpoch` | opd/rtp2httpd/src/rtp_reorder.c:181-193 | so a new window does not depend on near which number it is named |
| `RtpReorder.Reorder.constructor` | opd/rtp2httpd/src/rtp_reorder.c:12-41 | an empty window of 32 slots, or 512 with forward error correction |
| `RtpReorder.Reorder.FlushConsecutive` | opd/rtp2httpd/src/rtp_reorder.c:96-139 | the ring loop does what the flush does to the numbered packets, and releases each reference once |
| `RtpReorder.Reorder.ForceFlushUntil` | opd/rtp2httpd/src/rtp_reorder.c:142-175 | the ring loop does what making room does to the numbered packets |
| `RtpReorder.Reorder.First` | opd/rtp2httpd/src/rtp_reorder.c:181-193 | the first packet opens the window |
| `RtpReorder.Reorder.CollectOne` | opd/rtp2httpd/src/rtp_reorder.c:197-210 | a packet is kept unless its slot is taken, and base falls to the smallest number |
| `RtpReorder.Reorder.Active` | opd/rtp2httpd/src/rtp_reorder.c:225-304 | the branches at, before and after base agree with the window of numbered packets |
| `RtpReorder.Reorder.InsertPacket` | opd/rtp2httpd/src/rtp_reorder.c:177-305 | the ring with its 16-bit numbers, counter and references follows the window of numbered packets; each stored packet has exactly one reference; and all that was delivered since the window was made is in order, with every number passed delivered or counted as lost |
| `RtpReorder.Reorder.Get` | opd/rtp2httpd/src/rtp_reorder.c:307-313 | a lookup finds the packet of a number exactly when it is held |
| `RtpReorder.Reorder.Cleanup` | opd/rtp2httpd/src/rtp_reorder.c:43-68 | every reference is released |
| `RtpReorder.Reorder.CopyFrom` | opd/rtp2httpd/src/multicast.c:709-728 | a private window copied slot by slot stands where the shared one stands and continues its order; it fails exactly when a view cannot be had |
| `FecReorder.FlushExact` | opd/rtp2httpd/src/rtp_reorder.c:96-121 | with parity in use, a flush hands over every packet in its own place exactly when no slot it passes holds another packet |
| `FecReorder.ForceExact` | opd/rtp2httpd/src/rtp_reorder.c:142-163 | and so does making room, where the slots to be looked at are those of the ring beforehand |
| `FecReorder.MakesRoom` | opd/rtp2httpd/src/rtp_reorder.c:142-175 | what making room leaves of the ring, read off the ring beforehand: the base, the slots emptied, and the counter |
| `FecReorder.FlushStops` | opd/rtp2httpd/src/rtp_reorder.c:103-121 | a flush passes exactly the numbers below the first empty slot and below the counter |
| `FecReorder.InsertExact` | opd/rtp2httpd/src/rtp_reorder.c:225-302 | one arrival, with or without a recovered packet, hands over every packet in its own place if and only if the ring beforehand is clean for it: every number to be passed to make room, and then up to the first empty slot, finds no other packet in its slot |
| `FecReorder.SlotsExactly` | opd/rtp2httpd/src/rtp_reorder.c:225-302 | what an arrival leaves in the slots: a late one changes nothing, any other takes its slot unless the packet of the same 16-bit number is there, and the other slots stay as making room left them |
| `FecReorder.ReleasedIsRight` | opd/rtp2httpd/src/rtp_reorder.c:225-302 | as long as delivered packets have been released and only a missing packet is recovered, nothing is handed over out of place |
| `FecReorder.Replay` | opd/rtp2httpd/src/rtp_reorder.c:114-116 | an input from a new window on that replays: 0 to 7 start delivery, parity comes into use, 8 to 39 follow in order and 72 after them, and packet 8 goes out again in the place of 40 |
| `FecRing.Reorder.FlushConsecutive` | opd/rtp2httpd/src/rtp_reorder.c:96-130 | the loop over the ring arrays, which keeps what went out in its slot, does what the flush of the ring as a value does; the release that follows it is in the insertion |
| `FecRing.Reorder.ForceFlushUntil` | opd/rtp2httpd/src/rtp_reorder.c:142-175 | and so does the loop that makes room, which releases what it passes |
| `FecRing.Reorder.Insert` | opd/rtp2httpd/src/rtp_reorder.c:96-304 | one arrival, recovery included, does to the arrays, the 16-bit base and the counter what the insertion of the ring as a value does, and hands over the same packets; if packets were flushed and the base is past the cached earliest end, exactly the expired groups are dropped and exactly their packets leave the ring, and otherwise neither changes |
| `FecRing.Reorder.ReleaseExpired` | opd/rtp2httpd/src/rtp_fec.c:539-563 | every expired group is dropped and the packets of its range leave the ring; the other groups and packets stay |
| `FecRing.Reorder.ReleaseRange` | opd/rtp2httpd/src/rtp_reorder.c:315-325 | exactly the packets of a range of numbers leave their slots, also across wrap-around |
| `FecRun.RecentIsRight` | opd/rtp2httpd/src/rtp_reorder.c:225-304 | as long as no packet held is further back than a bound, an arrival that moves the base by no more than the rest of the window hands nothing over out of place, also when slots still hold delivered packets |
| `FecRun.ReleaseIsRecent` | opd/rtp2httpd/src/rtp_fec.c:539-563 | dropping the expired groups establishes that bound, when every delivered packet that is held lies in a group that spans less and is less than half the number space back |
| `FecRun.RunIsRight` | opd/rtp2httpd/src/rtp_reorder.c:96-304 | over any run, with releases in between, in which the ring keeps that bound before every arrival, every packet goes out in its own place, each number once and in order, and every number passed is handed over or counted as lost |
| `RtpReorder.ReferencesRelease` | opd/rtp2httpd/src/rtp_reorder.c:119-120 | emptying a slot gives back exactly the one reference it held |
| `Handoff.LooksEmpty` | opd/rtp2httpd/src/multicast.c:746-747 | the counter is zero exactly when nothing is held and no duplicate was counted twice, as long as it does not wrap around |
| `Handoff.HandOff` | opd/rtp2httpd/src/multicast.c:738-758 | from a new private window on: at equal bases, what was delivered privately followed by what the shared window delivers later strictly increases, nothing held is stranded, and every number passed is delivered or counted lost |
| `Handoff.NoGap` | opd/rtp2httpd/src/rtp_reorder.c:225-304 | packets numbered one after the other, the first of them not beyond base, make a delivering window give nothing up, whatever it held, and carry it past the last of them and no further than what it held; what the counter will be ahead in the end stays the same throughout |
| `Handoff.HandsOverAll` | opd/rtp2httpd/src/rtp_reorder.c:225-304 | so what it hands over from there on is every number, each once |
| `Handoff.DuplicateBlocksPromotion` | opd/rtp2httpd/src/multicast.c:746-747 | once a duplicate replaced the packet at base, the private window never passes the test for promotion |
| `Handoff.StaysPrivate` | opd/rtp2httpd/src/multicast.c:743-747 | and stays private over any run until the 16-bit counter wraps around |
| `Handoff.PromotionLost` | opd/rtp2httpd/src/rtp_reorder.c:177-304 | a run from a new window, 0 to 7, then 9, 40 and 9 again, that leaves the counter one ahead for good |
| `Handoff.RunConcat` | opd/rtp2httpd/src/rtp_reorder.c:177-305 | two runs in sequence are one run |
| `BufferPool.Pool.constructor` | opd/rtp2httpd/src/buffer_pool.c:83-107 | a new pool keeps the invariant, with the first segment all free |
| `BufferPool.Pool.Get` | opd/rtp2httpd/src/buffer_pool.c:174-177 | one more reference keeps the invariant |
| `BufferPool.Pool.View` | opd/rtp2httpd/src/buffer_pool.c:218-233 | a view shares the buffer itself or what the buffer is a view of, never a view, and holds one reference to it |
| `BufferPool.Pool.Put` | opd/rtp2httpd/src/buffer_pool.c:179-216 | the last reference of a view releases its owner once, the last one of a buffer puts it on the free list once; otherwise nothing moves |
| `BufferPool.Pool.SegmentCreate` | opd/rtp2httpd/src/buffer_pool.c:46-81 | a new segment is distinct unused buffers, all pushed on the free list |
| `BufferPool.Pool.Expand` | opd/rtp2httpd/src/buffer_pool.c:115-152 | growth happens exactly below the maximum and with memory at hand, never past the maximum, and keeps the invariant |
| `BufferPool.Pool.AllocFrom` | opd/rtp2httpd/src/buffer_pool.c:302-350 | a buffer comes off the free list with one reference; buffers of the pool stay in it and all others are as they were; it fails only when none is free and the pool cannot grow; growth at the low watermark |
| `BufferPool.Pool.Unlink` | opd/rtp2httpd/src/buffer_pool.c:369-384 | the walk over the free list takes off exactly the buffers of a segment and counts them |
| `BufferPool.Pool.FreeSegment` | opd/rtp2httpd/src/buffer_pool.c:369-408 | exactly as many nodes leave the free list as the segment has buffers, none of them referenced; the check for an inconsistency never fires |
| `BufferPool.Pool.TryShrink` | opd/rtp2httpd/src/buffer_pool.c:356-437 | shrinking frees no referenced buffer, never goes below the minimum, frees nothing more once the free buffers are down to the high watermark, stops before that only when nothing more can be freed, and keeps the invariant |
| `BufferPool.AllFree` | opd/rtp2httpd/src/buffer_pool.c:368-389 | a segment that counts all its buffers as free has no live buffer |
| `BufferPool.Shrunk` | opd/rtp2httpd/src/buffer_pool.c:368-408 | every part of the invariant survives the removal of a free segment |
| `BufferPool.Grown` | opd/rtp2httpd/src/buffer_pool.c:46-81 | every part of the invariant survives an added segment |
| `BufferPool.FreeAddsUp` | opd/rtp2httpd/src/buffer_pool.c:203-210 | the free list is as long as the free counts of the segments together |
| `SendQueue.Queue.Add` | opd/rtp2httpd/src/send_queue.c:103-143 | a buffer is queued at the tail with its payload and a reference of the queue, or refused when its payload is out of bounds |
| `SendQueue.Queue.AddFile` | opd/rtp2httpd/src/send_queue.c:145-186 | a file is queued at the tail in a new entry, with the bytes it has of the range announced, or refused without changing anything |
| `SendQueue.Queue.PopHead` | opd/rtp2httpd/src/send_queue.c:203-211 | head, tail and counters stay in step with the list; the whole capacity is released |
| `SendQueue.Queue.ConsumeMemory` | opd/rtp2httpd/src/send_queue.c:213-225 | exactly the sent bytes leave the front of the queue, across entries, and no counter goes below zero |
| `SendQueue.Queue.Gather` | opd/rtp2httpd/src/send_queue.c:304-318 | the slices offered are a prefix of the unsent bytes, within the budget and 64 slices |
| `SendQueue.Queue.SendSnapshot` | opd/rtp2httpd/src/send_queue.c:233-257 | the published batch file sends the same bytes as the buffer, at the offset of what is left, exactly as many as the kernel takes |
| `SendQueue.Queue.SendFile` | opd/rtp2httpd/src/send_queue.c:260-302 | a file goes out from where it stopped, exactly as much as the kernel takes of what the file has, and is dropped when complete |
| `SendQueue.Queue.SendBuffers` | opd/rtp2httpd/src/send_queue.c:304-367 | buffers go out together, exactly as many bytes as the kernel takes of those offered; would-block and lack of buffers are told apart from failure |
| `SendQueue.Queue.Send` | opd/rtp2httpd/src/send_queue.c:227-367 | for every answer of the kernel, on all three paths and after the fallback: the bytes written are the first of the unsent ones, exactly as many as the kernel takes of what is offered; the result is read off its answer; each entry that left the queue lost exactly one reference and the others none |
| `SendQueue.KernelDecides` | opd/rtp2httpd/src/send_queue.c:227-367 | no more is taken than the kernel says and the budget allows, and something is offered unless the file in front has nothing left |
| `SendQueue.Queue.Cleanup` | opd/rtp2httpd/src/send_queue.c:91-101 | every entry is released once |
| `SendQueue.Step` | opd/rtp2httpd/src/send_queue.c:215-224 | taking bytes off the front passes the head or stays in it |
| `SendQueue.OfferNext` | opd/rtp2httpd/src/send_queue.c:310-318 | offering one buffer more extends what is offered along the unsent bytes |
| `SendQueue.SnapshotHead` | opd/rtp2httpd/src/send_queue.c:236-237 | a range of the snapshot leads what is unsent |
| `SendQueue.FileHead` | opd/rtp2httpd/src/send_queue.c:262-292 | sending a part of a file takes its bytes off the front |
| `Connection.Connection.QueueBuffer` | opd/rtp2httpd/src/connection.c:1280-1323 | a buffer is queued unless the queue would retain more than the limit, or the payload lies outside its buffer; drops at the limit are counted; a gathered batch asks for a write |
| `Connection.Connection.QueueOutput` | opd/rtp2httpd/src/connection.c:658-707 | what gets queued is a prefix of the data in chunks of 1536, all of it exactly when every chunk finds a buffer and room; each new buffer has the one reference of the queue, and a write is asked for only once a batch has gathered |
| `Connection.Connection.SendLoop` | opd/rtp2httpd/src/connection.c:733-783 | what goes out is the first of the unsent bytes, at most 256 KiB and at most what the kernel granted in the rounds used; why the loop ends is fixed by how the last send ended, by the queue and by the share |
| `Connection.Connection.HandleWrite` | opd/rtp2httpd/src/connection.c:722-789 | the status tells what is waited for: closed after a failure or when all was written while closing, blocked exactly after the socket would block or nothing was taken, pending after a full share, idle otherwise; what was written is the first of the unsent bytes; the stream may queue more exactly when data was taken, and that is scheduled |
| `Connection.CutShortBlocks` | opd/rtp2httpd/src/send_queue.c:260-302 | a file shorter than announced holds up the queue: however ready the kernel is, nothing goes out and nothing fails |
| `Connection.SendOutcome` | opd/rtp2httpd/src/connection.c:733-783 | what one send can mean: how the answers of the kernel lead to failure, to waiting, or to progress |
| `FecGroups.Context.RecalcMinEndSeq` | opd/rtp2httpd/src/rtp_fec.c:31-44 | the loop finds the earliest end of the active groups |
| `FecGroups.Context.Oldest` | opd/rtp2httpd/src/rtp_fec.c:84-95 | the group evicted begins furthest before the new one |
| `FecGroups.Context.FindOrCreate` | opd/rtp2httpd/src/rtp_fec.c:49-141 | a group is had exactly when the range has not expired and either has a group already or memory can be had; a known range keeps its own and the table as it is; a new one gets the first empty slot, or that of the oldest in a full table, with the numbers of data and parity packets and the length given; other groups stay, also when an eviction ends in a failed allocation; count and cached minimum stay exact, after such a failure the cache is at worst too early, and the next call may follow |
| `FecGroups.Context.ReleaseExpired` | opd/rtp2httpd/src/rtp_fec.c:539-563 | exactly the expired groups are dropped, count and cached minimum are exact afterwards |
| `FecGroups.FiresExactly` | opd/rtp2httpd/src/rtp_reorder.c:132-136 | one comparison with the cached minimum tells whether any group has expired, if and only if the base is not at once half the sequence space or more past the earliest end and less than that past the latest |
| `FecGroups.SpreadTooWide` | opd/rtp2httpd/src/rtp_reorder.c:132-136 | such a base and such ends: the comparison misses an expired group |
| `FecGroups.SpreadReached` | opd/rtp2httpd/src/rtp_fec.c:49-141 | a table in which that happens, reached from a new one by two announcements |
| `FecGroups.JumpsReach` | opd/rtp2httpd/src/rtp_reorder.c:142-175 | and two jumps of the numbers that take the base there with no comparison on the way |
| `FecGroups.Replaced` | opd/rtp2httpd/src/rtp_fec.c:115-138 | what becomes of the cached minimum when a slot is given to another group, also when the cache was too early before |
| `FecGroups.AddedBehind` | opd/rtp2httpd/src/rtp_fec.c:131-134 | the cached minimum stays exact when a group is added that ends later |
| `DeliveryLog.HandledAccounted` | opd/rtp2httpd/src/multicast.c:804-810 | one packet more keeps what was handed over accounted for: every number from the first to the base once, in order, or counted as lost |
| `DeliveryLog.StillUpToDate` | opd/rtp2httpd/src/multicast.c:695-697 | a payload added to the log and to the batch keeps every line up to date |
| `DeliveryLog.StillInLine` | opd/rtp2httpd/src/multicast.c:809-813 | what the shared window does with a packet keeps every subscriber accounted for |
| `DeliveryLog.AccountedElsewhere` | opd/rtp2httpd/src/multicast.c:746-747 | an account carries over to a window that stands at the same number, and to any other when nothing numbered came out |
| `Joining.JoiningExactly` | opd/rtp2httpd/src/multicast.c:746-747 | joining a shared window that delivers keeps numbers increasing over every run to come if and only if the last number handed over is before its base, as a signed 16-bit difference tells; nothing handed over counts as before |
| `Joining.JoiningCollecting` | opd/rtp2httpd/src/multicast.c:746-747 | joining one that still collects keeps the order over every run of packets near those collected if and only if the last number handed over is before the lowest at which delivery can start, a window below the highest collected |
| `Joining.JoiningNew` | opd/rtp2httpd/src/multicast.c:746-747 | joining one that has seen nothing can break the order as soon as any number was handed over |
| `DeliveryLog.BareReplays` | opd/rtp2httpd/src/multicast.c:746-747 | an input that repeats numbers, reached from new windows: a subscriber handed 0 to 60 comes to a source that has seen 0 to 54, a bare payload takes it to the shared output, and 55 comes again |
| `DeliveryLog.GroupRunIs` | opd/rtp2httpd/src/multicast.c:790-818 | over any run without parity the shared window does what the packets do to it, everything that comes out is appended in order, and every number given up is counted |
| `DeliveryLog.FollowAllIs` | opd/rtp2httpd/src/stream.c:318-371 | over any run a private window does what the packets do to it, and what its subscriber was handed is what comes out |
| `DeliveryLog.RunAlone` | opd/rtp2httpd/src/multicast.c:738-818 | over any run without parity, a subscriber of single packets follows them in its own window, those that waited first; it joins the shared output at the first packet at which it may, and from then on its line stays |
| `DeliveryLog.JoinsInPlace` | opd/rtp2httpd/src/multicast.c:746-747 | joining at a numbered packet is joining at the same number, when the windows name their numbers less than half the space apart |
| `DeliveryLog.StaysAside` | opd/rtp2httpd/src/multicast.c:743-747 | over any run, a subscriber that is being closed, makes a snapshot, has failed, uses parity, or whose fast channel change has not ended never follows the shared output |
| `DeliveryLog.WaitsOrFails` | opd/rtp2httpd/src/fcc.c:720-752 | over any run before unicast has ended, the packets that make sense wait in order, and the subscriber fails exactly when one of them comes while the server cannot be told to stop |
| `DeliveryLog.ParityInUse` | opd/rtp2httpd/src/rtp_fec.c:279-285 | over any packets, parity is in use exactly when it was before or a valid parity packet came to a subscriber that is ready for it |
| `DeliveryLog.RunClean` | opd/rtp2httpd/src/multicast.c:738-818 | and such a subscriber ends with every number handed over once, in order, or counted as lost, when numbers are collected near each other, no bare payload is shared and the windows never stand half the number space apart; a new window can be named near any number, so a source that has come round is included |
| `DeliveryLog.JoinsInStep` | opd/rtp2httpd/src/multicast.c:738-818 | when packets are numbered one after the other, a new subscriber that comes to a source that stands at the first of these numbers and holds nothing joins the shared output at its eighth packet, and what it is handed is every packet since it came, each once and in order |
| `DeliveryLog.ComesLate` | opd/rtp2httpd/src/multicast.c:738-818 | the same at a source that has run since it was new, when the packets before the subscriber came and those after it are numbered one after the other, however often the numbers have come round |
| `Multicast.Session.Process` | opd/rtp2httpd/src/stream.c:318-371 | one packet of a subscriber's own goes through its window; what is sent is the payloads handed over; queued in full unless the queue refuses; nothing is claimed of media packets once parity is in use, nor of a snapshot |
| `Multicast.Session.Receive` | opd/rtp2httpd/src/multicast.c:760-788 | a single packet is ignored, processed, kept until unicast has ended, or processed after those that were kept, by the state of fast channel change; where that leaves the subscriber is the reception of it as a value |
| `Multicast.Source.Fanout` | opd/rtp2httpd/src/multicast.c:639-664 | every batched subscriber that can take the bytes gets them once and misses nothing; one for whom no view can be had fails, and no other |
| `Multicast.Source.Flush` | opd/rtp2httpd/src/multicast.c:666-675 | the pending batch goes out and nothing stays pending |
| `Multicast.Source.Append` | opd/rtp2httpd/src/multicast.c:677-701 | what a batched subscriber was sent, plus the pending batch, is everything in the log since it came in; one that takes whatever comes misses nothing and does not fail; no batch exceeds 65536 bytes, one that reaches them goes out, also when no batch can be allocated, and nothing is gathered when nobody is batched |
| `Multicast.Source.Share` | opd/rtp2httpd/src/multicast.c:805-813 | a packet passes through the shared window, and what comes out is appended in order |
| `Multicast.Source.DeliverAll` | opd/rtp2httpd/src/multicast.c:802-803 | every subscriber of single packets takes in exactly what is due to it, and misses nothing its queue takes |
| `Multicast.Source.ProcessPacket` | opd/rtp2httpd/src/multicast.c:790-818 | for any packet: window, log, losses and the kind of packet are those of the source as a value; every subscriber that can have its views goes where the packet leads it, through joining the shared output or being sent back from it; one whose queue takes everything misses nothing, also at the first parity packet; who joins at a numbered packet within half the number space stays accounted for |
| `Multicast.Source.ReceiveAll` | opd/rtp2httpd/src/multicast.c:884-899 | over any packets: window, log and losses are the fold of the packets; every subscriber that can have its views, batched or not, ends where they lead it; one whose queue takes everything misses nothing; who follows the shared output stays in line |
| `Multicast.Source.OneStream` | opd/rtp2httpd/src/multicast.c:736-758 | across private output, promotion and the way back, what a subscriber was sent and what is pending for it is its base and the payloads handed over, accounted for against the window it follows |
| `Multicast.Source.JoinsCleanly` | opd/rtp2httpd/src/multicast.c:746-747 | a subscriber that passes the test at a numbered boundary stays accounted for and leaves nothing behind, within half the number space |
| `Multicast.Source.PromoteReady` | opd/rtp2httpd/src/multicast.c:738-758 | exactly the subscribers that pass the test are moved, each behind the pending batch, and the others keep their lines; when nobody passes it the batch stays |
| `Multicast.Source.EnablePrivateFec` | opd/rtp2httpd/src/multicast.c:703-734 | every batched subscriber continues in a window that stands where the shared one stood, with all it was handed, or fails exactly when no window or copy can be had; nobody stays batched, and one that takes whatever comes misses nothing |
| `Multicast.Source.Attach` | opd/rtp2httpd/src/multicast.c:610-629 | a new subscriber starts after the current batch; counts and lists stay exact, and nobody else is disturbed |
| `Multicast.Source.Detach` | opd/rtp2httpd/src/multicast.c:468-513 | a leaving subscriber is taken off every list and count it is on |
| `Multicast.BatchedCount` | opd/rtp2httpd/src/multicast.c:623-629 | the batched subscribers are as many as the two lists leave over |
| `Multicast.Registry.Find` | opd/rtp2httpd/src/multicast.c:534-541 | the working source of a key is found exactly when there is one |
| `Multicast.Registry.Pick` | opd/rtp2httpd/src/multicast.c:531-550 | a subscriber can be attached exactly when a window of its own can be had or none is needed, and the key has a working source or a new one can be set up; one is needed for a snapshot, for fast channel change, and where there is no shared output |
| `Multicast.Registry.Join` | opd/rtp2httpd/src/multicast.c:515-635 | joining succeeds exactly then, or when the subscriber follows a source already; it reuses the working source of a key or registers a fresh one; who follows is known exactly afterwards; every source stays valid, working sources keep distinct keys, nobody else is disturbed, and failure changes nothing |
| `Multicast.Registry.Leave` | opd/rtp2httpd/src/multicast.c:468-513 | a source is dropped exactly when its last subscriber leaves; who follows is known exactly afterwards, and every source stays valid |
| `Multicast.Registry.Dispatch` | opd/rtp2httpd/src/multicast.c:790-818 | a packet for one source does there what processing it says, for window, log and every subscriber, and leaves every source valid |
| `Multicast.Registry.Apart` | opd/rtp2httpd/src/multicast.c:468-513 | nobody follows two sources |
| `Multicast.Registry.Placed` | opd/rtp2httpd/src/multicast.c:468-513 | whoever follows a source points to it, and it is registered |
| `ReceiveList.Source.Decide` | opd/rtp2httpd/src/multicast.c:960-1006 | the next receive is a future time, the delay fixed by the read, or notifications are armed, or the source has failed; timed reads are given up exactly when a read fills the limit, and taken up again exactly when, over 100 milliseconds or more, less than half of it would come within the longest delay |
| `ReceiveList.Worker.Unlink` | opd/rtp2httpd/src/multicast.c:415-423 | a node leaves the linked list in constant time and all links stay right |
| `ReceiveList.Worker.Push` | opd/rtp2httpd/src/multicast.c:1009-1015 | a node enters in front and all links stay right |
| `ReceiveList.Worker.Schedule` | opd/rtp2httpd/src/multicast.c:973-1016 | a source is on the list exactly when it has a time to receive |
| `ReceiveList.Worker.HandleEvent` | opd/rtp2httpd/src/multicast.c:1018-1026 | a notification reads once and leaves every source on a timer, armed or failed |
| `ReceiveList.Worker.WorkerReceive` | opd/rtp2httpd/src/multicast.c:1036-1046 | one pass reads exactly once from each due source, in list order, although served sources are linked in again meanwhile, and from no other; a served source ends with a later time or none |
| `ReceiveList.Worker.Release` | opd/rtp2httpd/src/multicast.c:449-450 | a source that goes is off the list, and all links stay right |
| `ReceiveList.DueOnce` | opd/rtp2httpd/src/multicast.c:1037-1046 | the due sources are those whose time has come, each once |
| `Fcc.Session.InitializeAndRequest` | opd/rtp2httpd/src/fcc.c:535-602 | a request goes out from the initial state, or the call fails there |
| `Fcc.Session.HandleSync` | opd/rtp2httpd/src/fcc.c:624-645 | a sync notification joins multicast once and is ignored afterwards |
| `Fcc.Session.HandleTelecom` | opd/rtp2httpd/src/fcc_telecom.c:85-246 | accept, reject, multicast-only and redirect answers by their fields; anything else is ignored; a repeated redirect to the same server is not followed |
| `Fcc.Session.HandleHuawei` | opd/rtp2httpd/src/fcc_huawei.c:144-346 | the same for Huawei answers, with their length checks |
| `Fcc.Session.Redirect` | opd/rtp2httpd/src/fcc_telecom.c:224-238 | a redirect is followed up to the maximum, and then multicast is joined |
| `Fcc.Session.AcceptNat` | opd/rtp2httpd/src/fcc_huawei.c:225-282 | an accepting answer may move the server address and the media port, never the signal port |
| `Fcc.Session.HandleUnicastMedia` | opd/rtp2httpd/src/fcc.c:650-679 | the switch to multicast happens exactly when a termination was sent and delivery has reached its number |
| `Fcc.Session.SendTermination` | opd/rtp2httpd/src/fcc.c:701-715 | a termination that was sent is not sent again, one that failed is tried again |
| `Fcc.Session.HandleTransition` | opd/rtp2httpd/src/fcc.c:720-752 | multicast packets wait in order until the switch |
| `Fcc.Session.HandleActive` | opd/rtp2httpd/src/fcc.c:757-788 | what was kept goes out first, once and in order, and then the packet |
| `Fcc.Session.HandleTick` | opd/rtp2httpd/src/fcc.c:335-381 | a tick falls back to multicast exactly when the server has been silent for the timeout of the state, asks for multicast exactly when only the sync is overdue, and leaves everything as it was otherwise |
| `Fcc.ClosesExactly` | opd/rtp2httpd/src/fcc.c:404-478 | an event closes the connection exactly when a packet should wait and the server cannot be told to stop, or when a redirect is to be followed and the request cannot be sent |
| `Fcc.TickExactly` | opd/rtp2httpd/src/fcc.c:335-381 | the same of the session as a value, with the timeouts as numbers: 80 milliseconds before unicast, 1000 from then on, 15000 for a sync |
| `Fcc.LastDataIs` | opd/rtp2httpd/src/fcc.c:435-443 | over any events, the time the timeouts count from is when the server was last heard of: a control or media packet from its address |
| `Fcc.NoFallBack` | opd/rtp2httpd/src/fcc.c:335-443 | over any events, as long as the server was heard of less than the timeout of the state before each tick, no tick falls back |
| `Fcc.Session.HandleCleanup` | opd/rtp2httpd/src/fcc.c:280-333 | a server that was never told to stop is told at the end; at most one termination per session succeeds |
| `Fcc.Session.Handle` | opd/rtp2httpd/src/fcc.c:404-478 | one event does what the reaction on values says: dispatch, the check of the server address, and the new request after a redirect |
| `Fcc.Session.Run` | opd/rtp2httpd/src/fcc.c:280-788 | any events in sequence do what their reactions do; full multicast is absorbing until cleanup, at most 5 redirects are followed, at most one termination succeeds |
| `Fcc.ReactGood` | opd/rtp2httpd/src/fcc.c:280-788 | every event keeps the invariant: no join before a multicast state, at most two after, one termination while a session lasts, kept packets in order |
| `Fcc.Lasting` | opd/rtp2httpd/src/fcc.c:280-788 | over any events nothing leads back from multicast, no packet handed on is taken back, and only cleanup ends a session |
| `Fcc.NothingDropped` | opd/rtp2httpd/src/fcc.c:720-788 | once multicast was asked for, whatever happens in between, every well-formed multicast packet is handed on or waits, in the order of arrival |
| `Fcc.RunHeads` | opd/rtp2httpd/src/fcc.c:701-752 | over any events packets wait only once the server was told to stop, and the first of them is the one it was told about |
| `Fcc.SwitchWithoutGap` | opd/rtp2httpd/src/fcc.c:650-788 | a unicast packet that completes the switch leaves no gap: the window has passed every number before the one announced, and when the packets that waited and those that follow are numbered one after the other, every number from the base of the window on is handed over once and none is given up |
| `Fcc.HuaweiOutcomes` | opd/rtp2httpd/src/fcc_huawei.c:144-346 | which moves a Huawei answer can cause, and when a new request follows |
| `FccWire.TelecomRead` | opd/rtp2httpd/src/fcc_telecom.c:85-246 | an answer written as bytes, with any values in the fields that are not read, has the effect its fields mean to a session that asked: error, multicast now, unicast first, another server five times at most with a new request each time; an address or a port of zero stands for the one known |
| `FccWire.TelecomSyncRead` | opd/rtp2httpd/src/fcc_telecom.c:97-99 | a sync notification is told by its format and length, and joins multicast once |
| `FccWire.TelecomElse` | opd/rtp2httpd/src/fcc_telecom.c:85-119 | anything else, too short or out of place, is heard and changes nothing |
| `FccWire.HuaweiRead` | opd/rtp2httpd/src/fcc_huawei.c:144-346 | the same for a whole answer of a Huawei server, the address to punch a hole for included |
| `FccWire.HuaweiShortRead` | opd/rtp2httpd/src/fcc_huawei.c:144-346 | and for one that ends before the address: too short for unicast or a redirect, it leads to multicast |
| `FccWire.HuaweiSyncRead` | opd/rtp2httpd/src/fcc_huawei.c:165-167 | a Huawei sync notification joins multicast once |
| `FccWire.HuaweiElse` | opd/rtp2httpd/src/fcc_huawei.c:144-177 | anything else from a Huawei server is heard and changes nothing |
| `FccWire.NotListening` | opd/rtp2httpd/src/fcc.c:435-440 | what comes from another address, or without a socket, is not looked at |
| `Switching.MediasArrive` | opd/rtp2httpd/src/rtp_reorder.c:177-304 | packets of a subscriber numbered one after the other are arrivals at its window |
| `Switching.PassesAll` | opd/rtp2httpd/src/rtp_reorder.c:225-304 | a window that delivers hands over every number of them from its base on, each once, and gives nothing up |
| `Switching.AwaitsNext` | opd/rtp2httpd/src/fcc.c:650-755 | whatever comes while multicast was asked for, from the server, the group or the clock, the first packet of the group tells the server where to stop, and the packets of the group wait in order |
| `Switching.AwaitsAll` | opd/rtp2httpd/src/fcc.c:650-755 | and so over any such run, in any order, up to the switch |
| `Switching.SwitchesAt` | opd/rtp2httpd/src/fcc.c:667-676 | a unicast packet that completes the switch leaves the window at or past the first number that waits, within half the number space |
| `Switching.OnlyGroup` | opd/rtp2httpd/src/fcc.c:653-656 | after the switch packets of the server change nothing, and the subscriber and its source do what the packets of the group make them do |
| `Switching.JoinsAfterSwitch` | opd/rtp2httpd/src/multicast.c:738-818 | from the switch on a subscriber is handed every number from the base of its window, each once, whether it joins the shared output or not; once the packets held before have gone, it joins if and only if its counter is right and no packet was held at the base |
| `Switching.UnicastThenShared` | opd/rtp2httpd/src/fcc.c:650-788 | over a whole run from the request for multicast to the shared output, with packets of the server and of the group in any order: what unicast delivered, the packets that waited and those that came later through the private or the shared window are one stream; from the base at the switch on every number is handed over once, in order, none is given up, and what came before stays accounted for |

## Left out

- Sockets, pollers, descriptors, logging, statistics and clocks: replaced by parameters; arming a poller is taken to succeed in `connection.dfy`.
- Freeing of codes and matrices, and failed allocations while decoding.
- FecReorder.InsertExact: what recovery yields for the missing packet is a parameter.
- FecRing.Reorder: begins where delivery has; collecting the first packets with parity in use, and the references of the buffers, are not in it.
- RtpReorder.Reorder.InsertPacket: agreement with the window of numbered packets is stated under the assumption on collected numbers above.
- The callback of the chunked decoder is taken to succeed.
- BufferPool.Pool: the free list and the segment list are sequences, not linked nodes; the address test while shrinking is membership in the segment; buffers for files, shared descriptors and statistics are not modelled, and a view is always given memory.
- SendQueue.Queue: an entry keeps its payload and window in one value; the release of an entry is a decrement of its count, and what follows from that is the subject of `buffer_pool.dfy`.
- SendQueue.Queue.Add: a snapshot is taken to hold the payload when it is queued, as its creation promises (`opd/rtp2httpd/src/buffer_pool.c:260-296`).
- Connection.Connection.QueueBuffer: the limit is a parameter; the floating-point rules that compute it are not modelled.
- FecGroups.Context.FindOrCreate: the packets of an evicted group are not taken out of the ring here; exactness of the cached minimum needs active ends within half the sequence space.
- Multicast.Source: subscriber lists are sequences; sending through shared descriptors, sockets of the parity stream, rejoining and timeouts of a source are not modelled.
- Switching.UnicastThenShared: what the counter is ahead at the switch is taken to be less than a round of the 16-bit counter, and a view of every packet to be had; timeouts that end unicast before it has reached the announced number are outside it.
- Multicast.Source.ReceiveAll: follows a subscriber for whom a view is refused only packet by packet, in `Multicast.Source.ProcessPacket`; whether one can be had depends on what it was sent meanwhile.
- Multicast.Session.Process: of a subscriber with parity in use, or of one that makes a snapshot, nothing is claimed beyond its place on the lists.
- Multicast.Source.EnablePrivateFec: the window of a subscriber for whom a view failed is not described, since it has failed and is handed nothing more.
- Parsing of packet headers, of parity packets and of packet types, recovery attempts per packet, and the media processing behind a window.
- Telling control packets of a server from media, building of fast-channel-change packets and binding of port ranges; opening the socket and sending are parameters.
- HTTP routing, playlists, proxying, configuration, the web interface and all scripts outside `opd/rtp2httpd/src`.
