# rcar: verified models

Dafny models of the self-contained algorithms in rcar, and proofs of what they promise. Every model
follows the code it cites branch by branch; the properties are stated for all inputs, all runs or all
reachable states. `dafny verify dfyconfig.toml` checks everything.

| files | what they model |
|---|---|
| `Md5Schedule`, `Md5Core`, `Md5Stream`, `Md5`, `Md5KnownAnswer` | the streaming MD5 object of `lib/md5.cpp`: carry buffer, two-word bit counter, unrolled block transform, in-place padding |
| `ThreadPool`, `PoolProtocol`, `PoolSafety`, `PoolShutdown`, `PoolDrain` | the mutex and condition-variable protocol of `lib/thread-pool.cpp` between dispatchers, timed-waiting workers and one destroyer |
| `Base64Tables`, `Base64`, `Base64Codec` | the table-driven Base64 codec of `lib/modp_b64.cc`, its tables, and its wrappers in `lib/base64.cpp` |
| `MimeHeaders`, `MimeContentType`, `MimeGrammar`, `MimeAppend`, `MimeMultipart`, `MimeDivision`, `Mime`, `MimeEdit`, `MimeProgram` | the recursive MIME parser and printer of `3rdparty/include/boost/mime.hpp` |
| `HexDump` | the row-collapsing hex dumper of `msg-server/utils.cpp` |
| `ConfigFile`, `ConfigRender` | the configuration-file parser of `lib/config-file.cpp` |
| `SellerOrders` | the seller's side of the order lifecycle in `apl-server/uri/seller` |
| `UrlEncoding` | `encodeUrl` of `msg-server/message.cpp` |
| `Common` | types shared by the others |

## How the main results fit together

- **MD5.** The specification is sections 3.1 to 3.5 of RFC 1321: pad, cut into blocks, fold the block
  function, where the block function is the 64-step loop with rotating registers. The object refines
  it for every way of cutting the message into `update` calls (`Md5.DigestOfChunks`). The streaming
  argument is made for an arbitrary block function and the schedule argument for an arbitrary round
  operation, so neither needs a fact about 32-bit arithmetic; the bijection of the 64 steps does, and
  has its own proof. The first entry of the test suite of RFC 1321 is proved as well, which ties every
  constant and function of the specification down (`Md5KnownAnswer.DigestOfNothing`).
- **Thread pool.** Each critical section is a method proved against a function on the shared fields; the
  protocol composes those functions into steps, with history variables for tickets. The invariants are
  kept by every step, hence hold in every reachable state. Every shutdown ends in the deletion. That it
  drains the queue is false in general. `PoolDrain.DrainedExactlyIf` gives the exact condition at the moment
  of the call, for all dispatched data, null pointers included: each null taken during the exit costs a
  worker. Two reachable counterexamples show the two ways to fail it, and `PoolDrain.AttendedExactlyIf`
  says when an accepted item is left without anybody to come for it.
- **Base64.** The reference is section 4 of RFC 4648 on 24-bit groups. The codec is proved equal to it store
  by store on real buffers, the overlapping word stores included. The tables `e0` and `d0` to `d3` are literal,
  entry by entry; `e1` and `e2`, which repeat the alphabet four times, are a literal 64-entry table indexed by
  the low six bits.
- **MIME.** At each of the four levels (header list, content type, multipart body, tree) "printing and
  parsing again gives the same value" holds if and only if the value is *readable*. For headers, content types
  and bodies that condition speaks of characters only; for a tree it puts these together and asks the
  content-type grammar for kind and boundary. Whatever the parser accepts is printed back byte for byte. A tree
  built by hand with an empty, unmarked prolog is not readable: `MimeMultipart.ZeroLengthPrologIsLost`. A
  multipart without a boundary is printed with one invented from the clock, which is a parameter, and its
  header is edited; the edited tree comes back if and only if it is readable and every content type that was
  appended to had been read to its end (`MimeEdit.EditedRoundTrip`). "multipart/mixed;" is not, and then the
  parser refuses the text (`MimeEdit.LostBoundaryIsRefused`).
- **Configuration file.** A file is accepted if and only if its lines are well formed, and a lookup finds the
  first binding of the key inside the section. Two facts of the code shape the model: a line of 255 or
  more characters ends the reading silently, and trimming a blank key, value or section name throws
  `std::out_of_range`, so the test for an empty section name that follows is never reached.
- **Orders.** The state of every order after a run is given in closed form from the requests that reach it;
  monotonicity, the open list and the shown reply follow.
- **URL encoding.** The length is kept in 32 bits, so injectivity fails from 2^32 bytes on; the exact
  condition and a collision are proved.

## Model

| member | source | states |
|---|---|---|
| Md5Schedule.Rounds | lib/md5.cpp:166-236 | for every round operation, the 64 unrolled assignments leave the registers that the loop with rotating registers, index schedules i, 5i+1, 3i+5, 7i mod 16, shift table and constant table leaves |
| Md5Schedule.Round1 | lib/md5.cpp:166-182 | the 16 assignments of round 1 are steps 0 to 15 of the loop |
| Md5Schedule.Round2 | lib/md5.cpp:184-200 | the 16 assignments of round 2 are steps 16 to 31 |
| Md5Schedule.Round3 | lib/md5.cpp:202-218 | the 16 assignments of round 3 are steps 32 to 47 |
| Md5Schedule.Round4 | lib/md5.cpp:220-236 | the 16 assignments of round 4 are steps 48 to 63 |
| Md5Core.FByBit | lib/md5.cpp:61-63 | F selects y where x has a 1 and z where it has a 0 |
| Md5Core.GByBit | lib/md5.cpp:65-67 | G selects x where z has a 1 and y where it has a 0 |
| Md5Core.HByBit | lib/md5.cpp:69-71 | H is the bitwise parity of its operands |
| Md5Core.IByBit | lib/md5.cpp:73-75 | I is x xor y where z has a 1 and not y where it has a 0 |
| Md5Core.FFFunction | lib/md5.cpp:84-86 | on words, FF chooses c where b has a 1 and d where it has a 0 |
| Md5Core.GGFunction | lib/md5.cpp:88-90 | on words, GG chooses b where d has a 1 and c where it has a 0 |
| Md5Core.HHFunction | lib/md5.cpp:92-94 | on words, HH takes the parity of b, c and d |
| Md5Core.IIFunction | lib/md5.cpp:96-98 | on words, II takes b xor c where d has a 1 and not c where it has a 0 |
| Md5Core.OrOfDisjoint | lib/md5.cpp:79 | the bitwise or of bits below bit n and bits from bit n on is their sum |
| Md5Core.RotateLeftMoves | lib/md5.cpp:78-80 | the or of the two shifts moves the top n bits below the others, for every rotation from 1 to 31 |
| Md5Core.MixIsInvertible | lib/md5.cpp:84-98 | each of FF, GG, HH and II is undone by its inverse, from both sides, whatever the other operands |
| Md5Core.CoreIsBijection | lib/md5.cpp:166-236 | for any fixed block the 64 steps before the final additions are a bijection on the four registers, with the inverse built from the inverse steps |
| Md5Core.DecodeWordJoinsBytes | lib/md5.cpp:140-141 | the or of the four shifted bytes is the little-endian word |
| Md5Core.DecodeEncodeWords | lib/md5.cpp:137-156 | decode undoes encode on every sequence of words |
| Md5Stream.LengthFieldMeans | lib/md5.cpp:307-317 | the length field is the number of bits modulo 2^64, least significant byte first |
| Md5Stream.DigestMeans | lib/md5.cpp:319-320 | the digest is the four registers in order, least significant byte first |
| Md5Stream.PadInjective | lib/md5.cpp:306-317 | two messages of any length with the same padded form are equal |
| Md5Stream.AbsorbAppend | lib/md5.cpp:251-284 | two updates in a row are one update with the concatenation |
| Md5Stream.Chunking | lib/md5.cpp:251-284 | the context after any sequence of updates is that after one update with all of it |
| Md5Stream.FinishIsMd5 | lib/md5.cpp:298-330 | finishing after any message gives the one-shot digest of sections 3.1 to 3.5 of RFC 1321, with an empty carry |
| Md5Stream.DigestIgnoresChunking | lib/md5.cpp:251-330 | the digest depends only on the concatenation of the updates |
| Md5KnownAnswer.InitialBytes | lib/md5.cpp:128-131 | the initial registers are the bytes of section 3.3 of RFC 1321 |
| Md5KnownAnswer.DigestOfNothing | lib/md5.cpp:78-330 | the digest of the empty message is d41d8cd98f00b204e9800998ecf8427e |
| Md5.CountIsBitLength | lib/md5.cpp:256-259 | the two count words are 8 times the bytes fed, modulo 2^64 |
| Md5.CountIndex | lib/md5.cpp:254 | count[0] / 8 % 64 is the number of bytes in the carry buffer |
| Md5.CountStep | lib/md5.cpp:256-259 | the addition with carry test and the extra length >> 29 counts length more bytes |
| Md5.Md5.constructor | lib/md5.cpp:103-106 | a new object is the empty context |
| Md5.Md5.FromText | lib/md5.cpp:111-116 | hashes a text at once, cut to its length modulo 2^32: the digest is the RFC 1321 digest of what is left |
| Md5.Md5.Init | lib/md5.cpp:120-132 | counter zero, initial registers, not finalized |
| Md5.Md5.Decode | lib/md5.cpp:137-142 | reads bytes as little-endian words |
| Md5.Md5.Encode | lib/md5.cpp:148-156 | writes words as little-endian bytes |
| Md5.Md5.Transform | lib/md5.cpp:161-245 | adds the 64-step core of the block into the state |
| Md5.Md5.CountUp | lib/md5.cpp:256-259 | keeps the counter equal to the bit length modulo 2^64 |
| Md5.GuardMeans | lib/md5.cpp:274 | while no block start wraps, the 32-bit guard is the intended comparison |
| Md5.Md5.HashBlocks | lib/md5.cpp:273-275 | folds the block function over the whole blocks of the input |
| Md5.Md5.HashInput | lib/md5.cpp:262-280 | either branch leaves the registers of the absorbed input and says what goes to the carry buffer |
| Md5.Md5.Update | lib/md5.cpp:251-284 | the object absorbs exactly the given bytes: registers, counter and carry buffer |
| Md5.Md5.Finalize | lib/md5.cpp:298-330 | stores the digest of what was absorbed and resets the context; a second call changes nothing |
| Md5.Md5.Wipe | lib/md5.cpp:322-324 | clears carry buffer and counter |
| Md5.Md5.HexDigest | lib/md5.cpp:335-346 | empty before finalize, then the digest in hexadecimal |
| Md5.HexDetermines | lib/md5.cpp:340-345 | the hexadecimal text determines every byte of the digest |
| Md5.DigestOfChunks | lib/md5.cpp:251-330 | an object fed a message in any chunks and finalized holds the RFC 1321 digest of the message |
| Md5.WrapsExactlyIf | lib/md5.cpp:274 | the 32-bit guard lets the block loop run past the input exactly when `update` is called with an unmanageable length: the last block would start within 64 bytes of 2^32 |
| ThreadPool.ThreadPool.constructor | lib/thread-pool.cpp:52-80 | a new pool is valid and empty |
| ThreadPool.ThreadPool.Dispatch | lib/thread-pool.cpp:142-183 | accepts exactly while the pool is valid, queues at the end, starts and counts a thread only when none is idle, the limit allows it and creation succeeds |
| ThreadPool.ThreadPool.Enter | lib/thread-pool.cpp:88-117 | becomes idle and either sleeps on an empty queue of a pool that is not exiting, or takes the front |
| ThreadPool.ThreadPool.Resume | lib/thread-pool.cpp:97-113 | after a wakeup or timeout sleeps again or takes the front, or nothing when there is none |
| ThreadPool.ThreadPool.Retire | lib/thread-pool.cpp:124-139 | the last decrement, and whether this was the last worker |
| ThreadPool.ThreadPool.BeginDestroy | lib/thread-pool.cpp:15-39 | a valid pool starts exiting; it may be deleted at once only when no worker is alive |
| PoolSafety.CountersKept | lib/thread-pool.cpp:96-175 | every step keeps alive and idle equal to the numbers of workers they stand for |
| PoolSafety.CountersAreExact | lib/thread-pool.cpp:96-175 | in every reachable state alive counts the workers not past their decrement, idle those in the wait, and 0 <= idle <= alive <= max |
| PoolSafety.TicketsKept | lib/thread-pool.cpp:97-121 | every step keeps order of items, single handling by the worker that took the item, and that no taken item is lost |
| PoolSafety.ItemsAreConserved | lib/thread-pool.cpp:82-183 | in every interleaving the taken items followed by the queue are the accepted items in dispatch order; each is handled at most once, by the one worker that took it, and none is dropped |
| PoolSafety.SignalsKept | lib/thread-pool.cpp:24-39 | every step keeps: nobody sleeps through an exit, the last worker wakes the destroyer, deletion means alive is 0 |
| PoolSafety.NoLostWakeupKept | lib/thread-pool.cpp:97-106 | every step keeps: while a worker sleeps unsignalled, each queued item has a worker coming for it |
| PoolSafety.StartsExactlyIf | lib/thread-pool.cpp:164-175 | a dispatch starts a thread if and only if it is accepted, a thread can be created, the limit is not reached and no worker is waiting |
| PoolSafety.ToldExactlyIf | lib/thread-pool.cpp:102-111 | a worker is told to leave exactly by its own timeout or by coming to an exiting pool, and never forgets |
| PoolSafety.LeavesExactlyIf | lib/thread-pool.cpp:118-121 | a worker leaves its loop exactly when it looks at a null item after being told to |
| PoolSafety.SafeAlongRun | lib/thread-pool.cpp:15-183 | all four invariants hold along every legal run |
| PoolSafety.ReachableIsSafe | lib/thread-pool.cpp:15-183 | all four invariants hold in every state reachable from a new pool, for every limit |
| PoolSafety.DeletedIsUntouched | lib/thread-pool.cpp:33-48 | when the pool is deleted every worker is past its last unlock |
| PoolDrain.ExitStepKeeps | lib/thread-pool.cpp:97-121 | every step of an exiting pool keeps, in both directions, that the workers still looping suffice for the nulls before the last item, and before the last non-null item |
| PoolDrain.DrainedExactlyIf | lib/thread-pool.cpp:24-121 | for all data, at deletion the queue is empty if and only if at the call of destroy it was empty or held fewer nulls before its last item than workers were looping; and every accepted non-null item has been handled if and only if the same holds of the queue up to its last non-null item |
| PoolDrain.DrainedWithoutNulls | lib/thread-pool.cpp:24-121 | when no null is queued both say: the queue was empty or some worker was still looping |
| PoolDrain.AttendedExactlyIf | lib/thread-pool.cpp:164-175 | an accepted item has some worker to come for it if and only if one was looping or alive < max and a thread can be created |
| PoolDrain.AttendedKept | lib/thread-pool.cpp:96-133 | with no null queued, no other step leaves queued items without such a worker |
| PoolShutdown.RemainingShrinks | lib/thread-pool.cpp:87-139 | once exiting, every worker step decreases a measure of queue and worker phases, and no other step changes it |
| PoolShutdown.ShutdownEnds | lib/thread-pool.cpp:87-139 | once exiting, workers take at most that many steps under every schedule |
| PoolShutdown.ShutdownNeverSticks | lib/thread-pool.cpp:24-48 | until deletion some step is enabled without a timeout or a spurious wakeup: a worker's while one is alive, then the deletion |
| PoolShutdown.ShutdownFinishes | lib/thread-pool.cpp:24-139 | every run of an exiting pool without rejected dispatches and spurious destroyer wakeups has at most Remaining + 1 steps, and no such step is left exactly when the pool is deleted |
| PoolShutdown.ShutdownCanFinish | lib/thread-pool.cpp:24-48 | from every safe exiting state there is a run to the deletion |
| PoolDrain.TimedOutWorkerStrandsItem | lib/thread-pool.cpp:102-129 | a reachable deletion that leaves an item unhandled: it was dispatched between a worker's timeout and its decrement |
| PoolDrain.NullStrandsItem | lib/thread-pool.cpp:107-121 | a reachable deletion that leaves an item unhandled although a worker was looping: a null used it up |
| Base64Tables.E0Means | lib/modp_b64_data.h:10-37 | e0 gives the symbol of the top six bits |
| Base64Tables.E1Means | lib/modp_b64_data.h:39-97 | e1 and e2 give the symbol of the low six bits |
| Base64Tables.D0Means | lib/modp_b64_data.h:100-145 | d0 holds the first sextet at its place in a little-endian word, or the bad mark for a non-alphabet character |
| Base64Tables.D1Means | lib/modp_b64_data.h:147-192 | the same for d1 and the second sextet |
| Base64Tables.D2Means | lib/modp_b64_data.h:194-239 | the same for d2 and the third sextet |
| Base64Tables.D3Means | lib/modp_b64_data.h:241-284 | the same for d3 and the fourth sextet |
| Base64Codec.EncodeLookups | lib/modp_b64.cc:89-93 | the four lookups spell the four sextets of the group |
| Base64Codec.ChunkLookup | lib/modp_b64.cc:216-222 | the four or-ed entries are bad exactly when a character is outside the alphabet, and otherwise hold the three decoded octets |
| Base64Codec.TailLookup | lib/modp_b64.cc:228-256 | the same for the last group with none, one or two pads |
| Base64.DecodeEncode | lib/modp_b64.cc:80-116 | by section 4 of RFC 4648, every encoding is acceptable and decodes to what was encoded |
| Base64.EncodeDecode | lib/modp_b64.cc:228-260 | encoding what an accepted string decodes to gives that string back if and only if its unused trailing bits are zero |
| Base64.PaddingIsEquals | lib/modp_b64.cc:99-112 | one octet left over ends in two '=', two octets in one, by code |
| Base64.AcceptableMeans | lib/modp_b64.cc:196-203 | what is accepted: whole groups of alphabet characters, apart from at most two '=' at the end |
| Base64.TestVectors | lib/modp_b64.cc:80-116 | the one- to three-octet test vectors of section 10 of RFC 4648 |
| Base64Codec.ModpEncode | lib/modp_b64.cc:80-116 | writes exactly 4*ceil(n/3) characters, the RFC 4648 encoding, and a NUL, inside modp_b64_encode_len |
| Base64Codec.EncodeLast | lib/modp_b64.cc:96-115 | the switch writes the padded last group and the NUL |
| Base64Codec.StoreWord | lib/modp_b64.cc:222-223 | a four-byte store of which the first three bytes stay |
| Base64Codec.DecodeChunks | lib/modp_b64.cc:215-225 | overlapping four-byte stores that advance by three leave the decoded groups, and failure is exactly a character outside the alphabet |
| Base64Codec.DecodeLast | lib/modp_b64.cc:228-260 | the last group decoded by its padding; the leftover-1 case is not reached |
| Base64Codec.DecodeStripped | lib/modp_b64.cc:206-260 | chunk count and leftover cover the text exactly once |
| Base64Codec.ModpDecode | lib/modp_b64.cc:187-261 | for every input -1 exactly when the length is not a multiple of 4 or a non-alphabet character remains before at most two pads, and otherwise the RFC 4648 decoding, inside len/4*3+2 bytes |
| Base64Codec.Base64Encode | lib/base64.cpp:5-18 | succeeds with the encoding, without the NUL |
| Base64Codec.Base64Decode | lib/base64.cpp:20-33 | succeeds exactly on acceptable input, with its decoding; on failure the output is untouched |
| Base64Codec.RoundTrip | lib/base64.cpp:5-33 | decoding after encoding succeeds and gives the input back |
| MimeHeaders.CharacterCodes | 3rdparty/include/boost/mime.hpp:101-109 | the character classes of the header grammar and the line break, by code |
| MimeHeaders.WrittenHeader | 3rdparty/include/boost/mime.hpp:340-347 | one header and the end of the list, written out |
| MimeHeaders.HeadersText | 3rdparty/include/boost/mime.hpp:94-133 | an accepted header list is readable and is written back as the text it was read from |
| MimeHeaders.HeadersRoundTrip | 3rdparty/include/boost/mime.hpp:94-133 | a written header list is read back unchanged if and only if each name is a token and each value a first line followed by folded lines that begin with a blank and are not blank |
| MimeContentType.ContentTypeHeader | 3rdparty/include/boost/mime.hpp:408-419 | the first Content-Type header in any letter case, else the default |
| MimeContentType.FindPhrase | 3rdparty/include/boost/mime.hpp:205-222 | the first phrase with the key in any letter case |
| MimeContentType.CharacterCodesOfTokens | 3rdparty/include/boost/mime.hpp:180-182 | printable characters and token characters, by code |
| MimeContentType.WordsIgnoreCase | 3rdparty/include/boost/mime.hpp:57-64 | words are alike exactly when they agree up to the case of letters |
| MimeContentType.KindByWords | 3rdparty/include/boost/mime.hpp:640-656 | multipart is Multi, message except delivery-status is Message, all else is Simple |
| MimeContentType.DefaultByWords | 3rdparty/include/boost/mime.hpp:724 | the default type is message/rfc822 inside multipart/digest, in any letter case, and text/plain inside all else |
| MimeGrammar.PhraseReads | 3rdparty/include/boost/mime.hpp:173-182 | a phrase is read with blanks, line breaks and comments before its name and after its value, quoted or not |
| MimeGrammar.TypesRead | 3rdparty/include/boost/mime.hpp:168-171 | type and subtype are read after any number of spaces |
| MimeContentType.ContentTypeRoundTrip | 3rdparty/include/boost/mime.hpp:163-203 | a content type written with quoted values is read back unchanged if and only if its names are tokens and its values can be quoted |
| MimeAppend.AppendedExactlyIf | 3rdparty/include/boost/mime.hpp:524-540 | a phrase appended to any accepted header text is read back, with nothing else changed, if and only if the grammar had read the text to its end or the text stops in a quoted value that the phrase completes to its own |
| MimeAppend.FoundExactlyIf | 3rdparty/include/boost/mime.hpp:524-540 | for a value without ';' the phrase is found if and only if the grammar had read the text to its end |
| MimeAppend.TrailingSemicolonLosesPhrase | 3rdparty/include/boost/mime.hpp:168-173 | after a type such as "multipart/mixed;" nothing that is appended is read |
| MimeAppend.OpenQuoteIsCompleted | 3rdparty/include/boost/mime.hpp:173-182 | texts that are not read to their end and yet give the appended phrase back |
| MimeMultipart.UntilIsLeast | 3rdparty/include/boost/mime.hpp:272-288 | the character loops of the grammar stop at the first place where the separator starts, or at the end |
| MimeMultipart.ReadMultipart | 3rdparty/include/boost/mime.hpp:298-310 | the parts are strictly shorter than the body, so the recursion ends |
| MimeMultipart.BodyText | 3rdparty/include/boost/mime.hpp:267-310 | an accepted multipart body is readable and is written back byte for byte |
| MimeMultipart.BodyRoundTrip | 3rdparty/include/boost/mime.hpp:267-310 | a written body is cut into the same prolog, parts and epilog if and only if prolog and parts are non-empty and free of their separators, also across the seam, and no prolog is marked missing unless it is |
| MimeMultipart.WrittenBody | 3rdparty/include/boost/mime.hpp:354-361 | a body of one part, written out, without a prolog and with one |
| MimeMultipart.NoPartIsRefused | 3rdparty/include/boost/mime.hpp:308-309 | no part after the first boundary line is the second parsing error |
| MimeMultipart.EndlessPartIsRefused | 3rdparty/include/boost/mime.hpp:288 | a part without a separator after it breaks the expectation of a terminator |
| MimeMultipart.EmptyPartIsRefused | 3rdparty/include/boost/mime.hpp:288 | so does an empty part between two separators |
| MimeMultipart.ZeroLengthPrologIsLost | 3rdparty/include/boost/mime.hpp:590-600 | a zero-length prolog not marked missing is always written in a form the parser refuses |
| MimeDivision.BoundaryIsUnique | 3rdparty/include/boost/mime.hpp:354-361 | after the same prolog one text cannot have been written with two boundaries |
| MimeDivision.DivisionIsUnique | 3rdparty/include/boost/mime.hpp:596-602 | under a boundary without carriage returns, a text is the writing of one list of readable parts that do not begin with a dash, as no printed part does, and of no other list as long |
| MimeDivision.DashedPartDividesTwice | 3rdparty/include/boost/mime.hpp:596-602 | without the condition on dashes there are texts with two divisions |
| Mime.ParseThenPrint | 3rdparty/include/boost/mime.hpp:568-605 | whatever the parser accepts, at any depth, is printed back byte for byte, whatever the clock shows, and the tree is readable |
| Mime.ParseAllThenPrint | 3rdparty/include/boost/mime.hpp:731-737 | the same for the sub-parts of a multipart, in order |
| Mime.PrintThenParse | 3rdparty/include/boost/mime.hpp:699-742 | every readable tree is printed without an exception and parsed back to itself |
| Mime.TreeRoundTrip | 3rdparty/include/boost/mime.hpp:568-742 | a tree comes back from its own text unchanged if and only if it is readable |
| MimeEdit.InventedForm | 3rdparty/include/boost/mime.hpp:586-587 | the form of an invented boundary and of the phrase that is appended |
| MimeEdit.AnnouncedExactlyIf | 3rdparty/include/boost/mime.hpp:581-588 | an invented boundary is announced by the edited header if and only if the content type had been read to its end; the kind is unchanged |
| MimeEdit.EditedRoundTrip | 3rdparty/include/boost/mime.hpp:568-605 | the tree that printing leaves, at any depth, comes back from its text if and only if it is readable and every content type appended to had been read to its end |
| MimeEdit.LostBoundaryIsRefused | 3rdparty/include/boost/mime.hpp:580-593 | every multipart with readable headers and a content type such as "multipart/mixed;", whatever else its headers hold, is printed in a form the parser refuses |
| Mime.KindByDefault | 3rdparty/include/boost/mime.hpp:714-737 | in whatever is accepted, a sub-part without a Content-Type is a message inside multipart/digest, in any letter case, and a simple part anywhere else |
| Mime.NoHeadersIsRefused | 3rdparty/include/boost/mime.hpp:140-143 | text that begins with neither a letter nor a line break is refused for its headers |
| Mime.NoTypeIsRefused | 3rdparty/include/boost/mime.hpp:198-200 | a content type without a slash is refused |
| MimeProgram.ParseMime | 3rdparty/include/boost/mime.hpp:699-742 | the recursive program computes the parse that the theorems are about, errors included |
| MimeProgram.ParseSubParts | 3rdparty/include/boost/mime.hpp:731-737 | the loop over the sub-parts, stopping at the first failure |
| MimeProgram.StreamedIsPrinted | 3rdparty/include/boost/mime.hpp:568-605 | printing raises exactly the errors of the printed form, and otherwise writes it and leaves the edited tree |
| MimeProgram.WrongCountLeaves | 3rdparty/include/boost/mime.hpp:573-575 | a message that does not hold one part writes nothing and stays as it was |
| MimeProgram.UnreadableTypeLeaves | 3rdparty/include/boost/mime.hpp:524-533 | a content type that cannot be read writes nothing and only adds a missing header |
| MimeProgram.FailureStops | 3rdparty/include/boost/mime.hpp:596-600 | where a sub-part fails its own output is the last that is written, and the sub-parts after it are as they were |
| MimeProgram.ChooseHeading | 3rdparty/include/boost/mime.hpp:581-588 | the boundary found or invented, with the header edited |
| MimeProgram.StreamOut | 3rdparty/include/boost/mime.hpp:568-605 | what is written, which tree is left and which error is raised, an exception half-way included |
| MimeProgram.StreamMultipart | 3rdparty/include/boost/mime.hpp:580-603 | headers, prolog, sub-parts and, unless one fails, terminator and epilog |
| MimeProgram.StreamParts | 3rdparty/include/boost/mime.hpp:594-600 | the loop with its writeCR flag; sub-parts after a failing one are untouched |
| HexDump.RowsEqual | msg-server/utils.cpp:105-114 | true exactly when the rows agree in all 16 places |
| HexDump.CopyRow | msg-server/utils.cpp:141-143 | the previous row becomes the current one |
| HexDump.FlushRow | msg-server/utils.cpp:128-146 | a full row is emitted, or one marker for a run of equal rows |
| HexDump.AmqpDump | msg-server/utils.cpp:116-157 | the loop over single bytes emits the row-wise dump |
| HexDump.Lossless | msg-server/utils.cpp:116-157 | every buffer is rebuilt from rows, markers and final count, leading zero rows included; the rebuilding refuses a gap without a marker |
| HexDump.DumpInjective | msg-server/utils.cpp:116-157 | equal dumps come from equal buffers |
| HexDump.FirstRow | msg-server/utils.cpp:121-139 | a full first row collapses exactly if it is all zeros, and is shown at address 0 otherwise |
| HexDump.ShortDump | msg-server/utils.cpp:152-156 | up to sixteen bytes are one row and the count, and nothing is one row without bytes |
| HexDump.NoTwoMarkers | msg-server/utils.cpp:131-139 | no two markers are adjacent |
| ConfigFile.ReadLinesMeaning | lib/config-file.cpp:47-52 | the loop sees the lines of the file up to the first that does not fit the 255-byte buffer |
| ConfigFile.AllLinesSeen | lib/config-file.cpp:47-52 | no line is lost if and only if every line is shorter than 255 characters |
| ConfigFile.StripMeaning | lib/config-file.cpp:95-100 | strip removes exactly the spaces at both ends and throws on a blank string |
| ConfigFile.CStringStops | lib/config-file.cpp:124-140 | a line ends before its first NUL |
| ConfigFile.HeaderErrors | lib/config-file.cpp:55-68 | which exception an unclosed, blank or repeated header raises |
| ConfigFile.EntryErrors | lib/config-file.cpp:72-89 | which exception a line before the first section, or with a blank key or value, raises; one without '=' changes nothing |
| ConfigFile.AcceptedExactlyIf | lib/config-file.cpp:52-91 | analyze succeeds if and only if the first line is a header, headers are closed and named, no section occurs twice, and no line with '=' has a blank key or value |
| ConfigFile.LookupIsFirstBinding | lib/config-file.cpp:72-84 | in an accepted file a lookup gives a value if and only if the first line that binds the key inside the section gives it |
| ConfigFile.ConfigFile.Analyze | lib/config-file.cpp:37-93 | the loop computes that table, or the exception of the first offending line |
| ConfigFile.ConfigFile.Body | lib/config-file.cpp:54-90 | one line: a new section, a first binding, nothing, or an exception |
| ConfigFile.ConfigFile.GetString | lib/config-file.cpp:173-186 | the looked-up value, or false |
| ConfigRender.RenderThenParse | lib/config-file.cpp:37-150 | any configuration of trimmed non-empty names, keys without '=' that do not start with '[', and values, on lines under 255 characters, written in any order, is read back as the same table |
| SellerOrders.Without | apl-server/uri/seller/order.cpp:152-159 | pulling removes every occurrence of the seller and nobody else |
| SellerOrders.Orders.PutRequest | apl-server/uri/seller/order.cpp:71-177 | the new collection and the answer for every request, invalid ones included |
| SellerOrders.AgreeStores | apl-server/uri/seller/order.cpp:106-151 | agreeing to a new order stores the seller's id, cost, time and feedback, and the items only of a bidding for maintenance; another order is refused |
| SellerOrders.OtherWords | apl-server/uri/seller/order.cpp:152-165 | withdrawing takes that seller off the targets, completing sets the status, any other word changes nothing |
| SellerOrders.RunAt | apl-server/uri/seller/order.cpp:96-164 | after a run each order is what the requests that reach it leave, and a later order of the same id is never changed |
| SellerOrders.FinalStatus | apl-server/uri/seller/order.cpp:160-162 | the final status is completed if some request completes, else the first one |
| SellerOrders.FinalTargets | apl-server/uri/seller/order.cpp:152-159 | the final targets are the first ones without the sellers that withdrew |
| SellerOrders.FinalReplies | apl-server/uri/seller/order.cpp:106-151 | the final replies are the first ones followed by those sent while the order was new, in order; nothing else of the order changes |
| SellerOrders.OrdersOnlyAdvance | apl-server/uri/seller/order.cpp:106-164 | over every run completed is never left, targets only shrink, replies only grow by appending and only while the order is new |
| SellerOrders.OpenNeverReturns | apl-server/uri/seller/order-list.cpp:29-30 | an order open to a seller after a run was open before it |
| SellerOrders.OpenExactlyIf | apl-server/uri/seller/order-list.cpp:29-30 | after every run an order is open to a seller if and only if it was, no request that reached it completed it, and none of that seller's agreed, ignored or canceled |
| SellerOrders.ShownReplyNeverChanges | apl-server/uri/seller/order-list.cpp:79-89 | an order listed for a seller by its reply stays listed and always shows the same reply |
| SellerOrders.QueryFinds | apl-server/uri/seller/order-list.cpp:24-30 | each of the three queries returns exactly the orders it asks for, by scope, seller, user, status, targets and replies |
| SellerOrders.QueryKeepsOrder | apl-server/uri/seller/order-list.cpp:43-45 | matches come in the order of the collection |
| SellerOrders.ListingAt | apl-server/uri/seller/order-list.cpp:46-90 | every listed order shows its own fields, its detail by order type, and the seller's reply in the list of answered orders only |
| SellerOrders.Orders.List | apl-server/uri/seller/order-list.cpp:12-93 | the page that the database makes of the chosen query, described order by order, for every way of paging |
| SellerOrders.ShowDetail | apl-server/uri/seller/order-list.cpp:62-77 | the booked services, or the whole detail of a bidding, or nothing |
| SellerOrders.SelectReply | apl-server/uri/seller/order-list.cpp:80-88 | the loop with its break finds the seller's first reply |
| UrlEncoding.EncodeUrl | msg-server/message.cpp:99-115 | the loop escapes the text up to its length modulo 2^32 |
| UrlEncoding.ToHex | msg-server/message.cpp:95-97 | an upper-case hexadecimal digit |
| UrlEncoding.Spelling | msg-server/message.cpp:103-112 | the spelling of every byte, by code |
| UrlEncoding.DecodeEscape | msg-server/message.cpp:102-113 | a left inverse: decoding gives back every escaped text |
| UrlEncoding.DecodedExactlyIf | msg-server/message.cpp:99-115 | decoding gives back the argument if and only if it is shorter than 2^32 bytes |
| UrlEncoding.EncodedAlikeExactlyIf | msg-server/message.cpp:99-115 | two texts are encoded alike if and only if they agree up to their lengths modulo 2^32 |
| UrlEncoding.LongTextCollides | msg-server/message.cpp:101-102 | a non-empty text is encoded like the empty one |
| UrlEncoding.EmittedExactlyIf | msg-server/message.cpp:102-113 | a text is the encoding of something if and only if it is made of unreserved characters, '+', and triplets of bytes that need one |
| UrlEncoding.AlphabetOf | msg-server/message.cpp:103-112 | only unreserved characters of section 2.3 of RFC 3986, '+', and '%' followed by two upper-case hexadecimal digits are emitted |

## Left out

- Md5.Md5.Update: requires a manageable length, because `i + blocksize` at line 274 is 32-bit arithmetic; `Md5.WrapsExactlyIf` shows that the condition is exact.
- MimeProgram.StreamOut: the edited tree is a result where the program edits in place.
- HexDump.AmqpDump: a row is an address and its bytes, not the characters printf makes of them.
- ConfigFile.ConfigFile.Analyze: the current section is a name in the table where the program holds a pointer into it; when an exception leaves the constructor there is no object, so nothing is said of its sections. Warnings are not modelled.
- SellerOrders.Orders.List: how the database applies number and offset is a parameter.
- SellerOrders.Orders.PutRequest: requests are sequential; the message pushed to the user and database errors are left out.
- Base64Tables.E1Means: the 256 entries of e1 and e2 are written as 64 entries indexed by the low six bits.
- Thread pool: pthread calls other than `pthread_create` succeed, there is one destroyer, and no dispatcher is inside the pool when it is deleted. Reading the front of an empty queue, undefined in C++, is modelled as a null item, which is what lines 118-121 expect.
- Base64: sizes fit an `int`, as the code's casts assume; the big-endian decoder is left out, since the shipped tables are the little-endian ones.
- MIME: comparison ignoring case is that of the C locale; the clock shows anything of its printed format; copying and other editing of hand-built trees is left out.
- The option parser of `tool/config/config.cpp` would only add easy members.
- libevent, MongoDB, curl, AMQP and ZooKeeper calls, server mains and logging: behaviour of libraries that are not part of this model.
- The ZooKeeper-backed option cache, `lib/config-cmdline.cpp`, the resource registry and the other seller resources: thin wrappers.
- Distance functions and thumbnail sizing: real trigonometry, or branches that constants make dead.
- `Message::format` and `sign` beyond `encodeUrl`: they depend on the clock and on JSON library internals.
