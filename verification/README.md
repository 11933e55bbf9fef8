# Verified models of five components

Dafny models of the parts of the simulator whose behaviour is decided by their own code, with proofs of what those
parts are for.

1. **Unicode transcoding** (`ConvertUTF.cc`, and its use in `SimpleIni.h`): six buffer-to-buffer converters. Each is a
   method over source and target positions that is proved equal to one *machine*: a turn reads one character and says
   what it writes, and `Machines` proves what holds of every machine whatever its turns are. `Unicode` states the
   standard by itself (definitions D76, D91 and D92 and Tables 3-5 to 3-7 of section 3.9), without the code's tables and
   offsets. `BitFacts` computes the masks of the code digit by digit and proves what they do to numbers; the converters
   write their units through them.
2. **Asynchronous logging** (`circular_q.h`, `mpmc_blocking_q.h`, `thread_pool-inl.h`, `ringbuffer_sink.h`): a ring, a
   blocking queue as a state machine over atomic steps of any number of threads, and the pool's shutdown on top of it.
3. **Rotating log files** (`rotating_file_sink-inl.h`, `split_by_extension`): a sink over a map from names to contents.
4. **The optical transmit machine** (`optical-device.cc`): a device with a bounded queue and a scheduled completion
   event.
5. **INI text and its store** (`SimpleIni.h`): the in-place parser, the printer, the sorted multimap that also remembers
   creation order, and the theorem that the parser undoes the printer. `IniLines` and `IniGrammar` say by themselves,
   with every character written out, what the lines of a text are and mean; loading is proved to do that, and `IniSaved`
   that saving writes such lines.

Where the source changes state step by step the model does too: buffers are arrays that are written in place, objects
are classes, loops are loops. Each such method is proved against a specification function, and the properties are lemmas
about those functions, over all inputs and all runs.

Main results, component by component: `RoundTrips.RoundTrip`, `RoundTrips.Triangle16`, `Transcoding.ExitTranscribes`
with `StopReasons.Why8`, and `Resuming.Resumable` with `ResumingUtf32.ResumableIff`; `MpmcProtocol.NeverLosesWakeup`,
`MpmcProtocol.QueueConserves` with `MpmcProtocol.QueueAccounts`, `PoolMessages.BlockingLosesNothing` and
`PoolShutdown.ShutdownEnds`; `RotatingFile.LifeKeepsHistory` and `RotatingFile.SizesBounded`; `OpticalDevices.RunKeeps`
and `OpticalDevices.SendAccepted`; `IniGrammar.TextLoads`, `IniRoundTrip.RoundTrip`, `IniMarks.MarkedLost`,
`IniValues.ReadsBackIffSafe`, `IniHeaders.UnclosedHeader`, `IniSections.AddEntryOk` and `IniFind.FindEntry`.

Where the code and its documentation part, the models follow the code:

- `isLegalUTF8` has only upper bounds for the second byte behind ED and F4, so it accepts more than Table 3-7
  (`Transcoding.LegalSet` says exactly what; `ConvertUtfSpec.LegalIsScalar` that what it accepts beyond the table still
  becomes a scalar value).
- UTF-32 above 10FFFF sets the result to illegal but does not end the loop. The call that meets it says so, and a call
  that resumes behind it does not know any more, so from UTF-32 the result may differ between one call and many
  (`Resuming.ForgottenIllegal`). `ResumingUtf32.ResumableIff` says on the source when: some targets make it differ
  exactly if a character above the range stands before the last one, the last one is in range, no surrogate stops the
  strict converter, and the characters before the last fill a target. The lenient converter to UTF-16 always resumes.
- `rotate_now` does not reset the size, so the next record may rotate too early (`RotatingFile.EarlyRotation`); the size
  still never underestimates the file. It is right after a call exactly if it was 0 (`RotatingFile.RotateNowGoesStale`),
  and `RotatingFile.ExactIff` says after which runs it is right.
- A section header that is not closed is not skipped: the section pointer stays in it, and a key that follows is found
  in a section whose name runs over the end of the line (`IniHeaders.OpenHeaderText`). It is as if it had been skipped
  exactly if no key with a value that can be read comes before the next header, or the section before had that very name
  (`IniHeaders.UnclosedHeader`, `IniHeaders.SectionOfKey`).
- White space behind an end tag is ignored only while no line of the block has been moved. Behind a CR LF, the tag line
  has been moved and its end is looked for where it was, so white space counts (`IniLoad.TagSeen`). And the first
  character of a line is never taken for white space behind the tag, so an empty tag is not seen in front of white
  space. The tag is missed exactly if white space stands behind it and, besides, a line before it ended with CR LF or
  the tag is empty (`IniTags.IgnoredUnlessHidden`, `IniTags.HiddenText`, `IniTags.HiddenEmptyTag`).
- An end tag on the very first line of a block does not make an empty value: it yields the tag itself if white space
  follows it on its line, and otherwise all the rest of the text; and with an empty tag and an empty line loading stops
  there. Every other block gives the lines before its tag (`IniTags.BeforeTagUnlessFirst`, `IniTags.FirstLineText`).
  This is for copied strings: on a first load, where the program keeps pointers into its buffer, such a rest of the text
  is cut by the NULs that are written later. Every other string ends in the part that has been read and is not touched
  again (`IniFind.FindEntry`, `IniFind.Survives`).
- `IsSingleLineQuotedValue` looks at the first character before it looks for newlines, so a value that starts with white
  space is quoted even if it has newlines, and then does not come back (`IniValues.ReadsBackIffSafe`).
- A comment of the first section is taken for the comment of the file if the file has none
  (`IniRoundTrip.MisplacedComment`).
- A store whose section without a name has no key is saved as if it had no such section, so it does not come back
  (`IniRoundTrip.RoundTrip`, `IniRoundTrip.EmptyLeavesNothing`).
- `LoadData` takes the bytes EF BB BF away from the front of whatever it is given. A first key of the section without a
  name that begins with them loses them, unless the text was saved with a signature in front (`IniRoundTrip.MarkedKey`).
  What is left may be no key at all, so that the lines of its value are read as entries, and headers in them move keys
  to other sections; still no such content ever comes back (`IniMarks.MarkedLost`), since from any line of a saved text
  no more can be found than was saved from there on (`IniChunks.FoundBound`).

## Model

| member | source | states |
|---|---|---|
| `Unicode.EncodeDecode8` | src/cpp/contrib/simpleini/model/ConvertUTF.cc:214-280 | Definition D92: the encoding of every scalar value is a well-formed sequence of Table 3-7 and decodes to it again |
| `Unicode.DecodeEncode8` | src/cpp/contrib/simpleini/model/ConvertUTF.cc:464-520 | Every sequence of Table 3-7 decodes to a scalar value whose only encoding it is |
| `Unicode.SurrogateBytes` | src/cpp/contrib/simpleini/model/ConvertUTF.cc:249-278 | A lone surrogate, which the lenient converters pass on, is written in the three bytes that sum up to it and are not well-formed |
| `Unicode.EncodeAllConcat` | src/cpp/contrib/simpleini/model/ConvertUTF.cc:61-105 | In each of the three forms encoding a text is encoding its parts, so text can be cut between characters |
| `ConvertUtfSpec.LegalIsScalar` | src/cpp/contrib/simpleini/model/ConvertUTF.cc:336-365 | Whatever passes the legality check is read as a Unicode scalar value: never a surrogate, never above 10FFFF |
| `ConvertUtfSpec.LegalValue` | src/cpp/contrib/simpleini/model/ConvertUTF.cc:190-191 | For every accepted sequence no step of the magic-offset sum wraps around in 32 bits, and the sum lies in the range that its length stands for |
| `ConvertUtfSpec.Accumulated` | src/cpp/contrib/simpleini/model/ConvertUTF.cc:353-364 | A step of the fall-through switch with a sum below 2^26 loses nothing to the 32-bit shift |
| `BitFacts.MarkLowBits` | src/cpp/contrib/simpleini/model/ConvertUTF.cc:270-272 | Setting byteMark and masking with byteMask, computed digit by digit, gives a trailing byte with the six lowest digits, for every word |
| `BitFacts.MarkFirst` | src/cpp/contrib/simpleini/model/ConvertUTF.cc:273 | Setting firstByteMark adds the mark to what is left of a code point for the first byte |
| `BitFacts.LowHalf` | src/cpp/contrib/simpleini/model/ConvertUTF.cc:98-100 | Masking with halfMask gives the ten lowest digits, for every word |
| `ConvertUtf.ReadUTF8` | src/cpp/contrib/simpleini/model/ConvertUTF.cc:353-365 | The fall-through switch from any entry reads exactly the bytes of one sequence, and the source ends up behind it |
| `ConvertUtf.ReadUTF16` | src/cpp/contrib/simpleini/model/ConvertUTF.cc:116-146 | Reads a unit or a pair, and tells a lone high surrogate at the end (source exhausted) from one in front of something else, under either flag |
| `ConvertUtf.WriteUTF8` | src/cpp/contrib/simpleini/model/ConvertUTF.cc:270-278 | Writing backwards by fall-through puts the encoding of the character into its place and changes nothing else |
| `ConvertUtf.ConvertUTF32toUTF16` | src/cpp/contrib/simpleini/model/ConvertUTF.cc:61-105 | From any positions: result, both returned positions and the whole target buffer are those of the machine, and cells outside the written part are unchanged |
| `ConvertUtf.ConvertUTF16toUTF32` | src/cpp/contrib/simpleini/model/ConvertUTF.cc:110-163 | The same for UTF-16 to UTF-32, with the source pointer backed up when the room is missing |
| `ConvertUtf.ConvertUTF16toUTF8` | src/cpp/contrib/simpleini/model/ConvertUTF.cc:214-280 | The same for UTF-16 to UTF-8, where the target is checked after reading and the source pointer is backed up |
| `ConvertUtf.ConvertUTF8toUTF16` | src/cpp/contrib/simpleini/model/ConvertUTF.cc:336-405 | The same for UTF-8 to UTF-16, including the four exits and the back-up over a whole sequence |
| `ConvertUtf.ConvertUTF32toUTF8` | src/cpp/contrib/simpleini/model/ConvertUTF.cc:409-462 | The same for UTF-32 to UTF-8, where a value above range is replaced and the loop goes on |
| `ConvertUtf.ConvertUTF8toUTF32` | src/cpp/contrib/simpleini/model/ConvertUTF.cc:464-520 | The same for UTF-8 to UTF-32 |
| `Machines.Exits` | src/cpp/contrib/simpleini/model/ConvertUTF.cc:234-236 | Every call stops between turns, has written just what the turns so far write, and has the result of one of the four exits for a reason that holds there |
| `Machines.OtherRoom` | src/cpp/contrib/simpleini/model/ConvertUTF.cc:92-94 | A call that did not run out of room gives the same with any other room that is enough |
| `Machines.AmpleRoom` | src/cpp/contrib/simpleini/model/ConvertUTF.cc:397-400 | Room for k units per source unit never runs out if no turn writes more than k per unit |
| `Machines.Split` | src/cpp/contrib/simpleini/model/ConvertUTF.cc:264-268 | A call with little room is a prefix of the call with more, which goes on where the first stopped |
| `Machines.ResumedEnds` | src/cpp/contrib/simpleini/model/ConvertUTF.cc:264-268 | Repeated calls, each with room for one character, come to an end after at most as many calls as there are source units |
| `Machines.ResumedAgrees` | src/cpp/contrib/simpleini/model/ConvertUTF.cc:264-268 | Repeated calls consume and write the same as one call |
| `Machines.CutPlaces` | src/cpp/contrib/simpleini/model/ConvertUTF.cc:214-280 | The consumed source falls into the pieces that the turns took, in order, and the output is what they wrote, joined |
| `Transcoding.LegalSet` | src/cpp/contrib/simpleini/model/ConvertUTF.cc:295-332 | Exactly what the legality check accepts: Table 3-7, and the ED and F4 rows with a second byte below 80 |
| `Transcoding.MagicDecodes` | src/cpp/contrib/simpleini/model/ConvertUTF.cc:353-365 | On well-formed sequences the magic offsets and the decoding of the standard agree; anything else accepted is one of the tolerated rows, and is read as the sum that its row would give |
| `Transcoding.StrictIsLenient8` | src/cpp/contrib/simpleini/model/ConvertUTF.cc:366-390 | From UTF-8 the strict and the lenient flag give the same result, positions and output on every input and with every room |
| `Transcoding.AnyTurnDenotes` | src/cpp/contrib/simpleini/model/ConvertUTF.cc:214-280 | For all six converters and both flags a turn consumes one whole encoded character and writes the encoding of exactly what that character stands for, the tolerated sequences included |
| `Transcoding.ExitTranscribes` | src/cpp/contrib/simpleini/model/ConvertUTF.cc:336-405 | At every exit of every converter the output is the concatenated encodings of the characters that the consumed prefix is made of, within the given room |
| `Transcoding.ConvertExits` | src/cpp/contrib/simpleini/model/ConvertUTF.cc:464-520 | Each of the four results of each converter, with what stands in front of the returned source pointer when it is given |
| `StopReasons.Why8` | src/cpp/contrib/simpleini/model/ConvertUTF.cc:336-405 | From UTF-8, on every input and with any room, the result is OK exactly if nothing is left, SourceExhausted exactly if the next character announces more bytes than are left, SourceIllegal exactly if its bytes are there and are neither in Table 3-7 nor tolerated, and TargetExhausted exactly if it is readable and does not fit |
| `StopReasons.Why16` | src/cpp/contrib/simpleini/model/ConvertUTF.cc:116-163 | From UTF-16 the source is exhausted exactly if a lone high surrogate is left, and illegal exactly if the flag is strict and an unpaired surrogate comes next; for the rest as from UTF-8 |
| `StopReasons.Why32` | src/cpp/contrib/simpleini/model/ConvertUTF.cc:61-105 | From UTF-32 the source is never exhausted; the result is illegal exactly if the strict converter stops at a surrogate, or everything was read and a character above the range has gone by that is not replaced silently; and TargetExhausted exactly if there is no room for the next character, which the converter to UTF-16 asks first |
| `StopReasons.Turn32Is` | src/cpp/contrib/simpleini/model/ConvertUTF.cc:409-462 | What each character becomes, in numbers: FFFD for what is replaced, nothing for what the strict converter to UTF-16 drops |
| `StopReasons.ReplacementInUnits` | src/cpp/contrib/simpleini/model/ConvertUTF.h:96 | FFFD is one unit in UTF-16 and EF BF BD in UTF-8 |
| `StopReasons.CutAndStray` | src/cpp/contrib/simpleini/model/ConvertUTF.cc:345-352 | The front of a three-byte character is a source exhausted, a stray trailing byte a source illegal |
| `Transcoding.PairsStayWhole` | src/cpp/contrib/simpleini/model/ConvertUTF.cc:116-146 | No call from UTF-16 leaves its source pointer inside a surrogate pair |
| `RoundTrips.Transcodes` | src/cpp/contrib/simpleini/model/ConvertUTF.cc:409-462 | Between any two forms, under either flag and with just enough room, encoded text becomes the other encoding of the same text, all of it consumed |
| `RoundTrips.RoundTrip` | src/cpp/contrib/simpleini/model/ConvertUTF.cc:61-163 | Every sequence of scalar values survives the way from any form to any other and back, under any flags |
| `RoundTrips.WellFormedIsEncoded` | src/cpp/contrib/simpleini/model/ConvertUTF.cc:464-520 | Text well-formed by section 4 of RFC 3629 is the encoding of a sequence of scalar values |
| `RoundTrips.RoundTrip8` | src/cpp/contrib/simpleini/model/ConvertUTF.cc:409-520 | Well-formed UTF-8 survives the way to UTF-32 or UTF-16 and back, under any flags |
| `RoundTrips.Triangle8` | src/cpp/contrib/simpleini/model/ConvertUTF.cc:336-405 | On every input, legal or not, UTF-8 to UTF-16 is UTF-8 to UTF-32 to UTF-16, with the same result, consumed prefix and output |
| `RoundTrips.Triangle16` | src/cpp/contrib/simpleini/model/ConvertUTF.cc:110-163 | On every input UTF-16 to UTF-8 is UTF-16 to UTF-32 to UTF-8 under the same flag, with the same result, consumed prefix and output |
| `Resuming.AgreesWithOneCall` | src/cpp/contrib/simpleini/model/ConvertUTF.cc:391-396 | For any machine: calls with targets of any sizes that hold one character consume and write what one call does, and the two results differ only by what the calls forgot |
| `Resuming.Resumable` | src/cpp/contrib/simpleini/model/ConvertUTF.cc:366-396 | From UTF-8 and from UTF-16 the repeated calls give the same result, consumed prefix and output as one call |
| `Resuming.ResumableUpToResult` | src/cpp/contrib/simpleini/model/ConvertUTF.cc:430-446 | From UTF-32 the repeated calls consume and write what one call does, and only one difference in the result is possible: all is well instead of illegal |
| `ResumingUtf32.ResumableIff` | src/cpp/contrib/simpleini/model/ConvertUTF.cc:421-446 | From UTF-32 the calls give the same as one call for all adequate targets if and only if the source cannot be forgotten: a condition on the characters of the source, the form and the flag alone |
| `ResumingUtf32.ResumableUnlessForgets` | src/cpp/contrib/simpleini/model/ConvertUTF.cc:421-446 | On a source that cannot be forgotten, calls with any adequate targets are one call: same result, prefix and output |
| `ResumingUtf32.Forgets` | src/cpp/contrib/simpleini/model/ConvertUTF.cc:67-106 | On every other source there are target sizes with which the calls say that all is well where one call says illegal |
| `ResumingUtf32.NothingToForget` | src/cpp/contrib/simpleini/model/ConvertUTF.cc:86-91 | Nothing can be forgotten if no character is above the range, nor by the lenient converter to UTF-16 |
| `Resuming.ForgottenIllegal` | src/cpp/contrib/simpleini/model/ConvertUTF.cc:437-440 | An input where one call says illegal and the resumed calls say that all is well |
| `SiConvert.SizeFromStoreSuffices` | src/cpp/contrib/simpleini/model/SimpleIni.h:3053-3072 | A target of as many wide characters as there are bytes never runs out, for 16 and for 32 bits, and conversion succeeds exactly on legal text |
| `SiConvert.ConvertFromStore32` | src/cpp/contrib/simpleini/model/SimpleIni.h:3090-3125 | For any target: the target holds what the converter writes and is otherwise as it was, success is the result of the converter, and with SizeFromStore units it is exactly legal text |
| `SiConvert.ConvertFromStore16` | src/cpp/contrib/simpleini/model/SimpleIni.h:3090-3125 | The same for 16-bit wide characters |
| `SiConvert.StringLength` | src/cpp/contrib/simpleini/model/SimpleIni.h:3136-3146 | The loop finds the first terminator |
| `SiConvert.SizeToStoreSuffices32` | src/cpp/contrib/simpleini/model/SimpleIni.h:3136-3158 | Six bytes per wide character and one for the terminator never run out; conversion succeeds exactly if all values are in range |
| `SiConvert.SizeToStoreSuffices16` | src/cpp/contrib/simpleini/model/SimpleIni.h:3136-3158 | The same for 16 bits, where conversion always succeeds |
| `SiConvert.ConvertToStore32` | src/cpp/contrib/simpleini/model/SimpleIni.h:3170-3212 | For any target: the converted string with its terminator is at the front as far as it goes, success is the result of the converter, and with SizeToStore bytes it is exactly being in range |
| `SiConvert.ConvertToStore16` | src/cpp/contrib/simpleini/model/SimpleIni.h:3170-3212 | The same for 16 bits, which with SizeToStore bytes always succeeds |
| `SiConvert.Converter.Reserve` | src/cpp/contrib/simpleini/model/SimpleIni.h:448-450 | The doubling loop ends with a scratch buffer that is big enough, less than twice what is needed, and untouched if it was big enough before |
| `SiConvert.Converter.Store32` | src/cpp/contrib/simpleini/model/SimpleIni.h:443-455 | Estimate, doubling and conversion together never run out of room |
| `SiConvert.Converter.Store16` | src/cpp/contrib/simpleini/model/SimpleIni.h:443-455 | The same for 16-bit wide characters |
| `CircularQueue.RingPush` | src/cpp/contrib/spdlog/include/spdlog/details/circular_q.h:46-57 | Writing at the tail and moving the head when it is caught up with is appending and dropping the oldest, just when the ring was full |
| `CircularQueue.CircularQ.constructor` | src/cpp/contrib/spdlog/include/spdlog/details/circular_q.h:29-31 | A ring for max items is empty with one cell more, also for max 0 |
| `CircularQueue.CircularQ.Disabled` | src/cpp/contrib/spdlog/include/spdlog/details/circular_q.h:26 | The default ring holds nothing |
| `CircularQueue.CircularQ.PushBack` | src/cpp/contrib/spdlog/include/spdlog/details/circular_q.h:46-57 | The view gets the item at its end and loses the oldest exactly if it was full, which the overrun counter counts; a disabled ring stays empty |
| `CircularQueue.CircularQ.Front` | src/cpp/contrib/spdlog/include/spdlog/details/circular_q.h:61 | The oldest item |
| `CircularQueue.CircularQ.Size` | src/cpp/contrib/spdlog/include/spdlog/details/circular_q.h:66-72 | Both branches of the index subtraction give the length of the view |
| `CircularQueue.CircularQ.At` | src/cpp/contrib/spdlog/include/spdlog/details/circular_q.h:76-79 | Index i counts from the oldest item, around the end of the buffer |
| `CircularQueue.CircularQ.PopFront` | src/cpp/contrib/spdlog/include/spdlog/details/circular_q.h:83 | Takes the oldest item away and keeps the others in order |
| `CircularQueue.CircularQ.Empty` | src/cpp/contrib/spdlog/include/spdlog/details/circular_q.h:85 | Head and tail are equal exactly if the view is empty |
| `CircularQueue.CircularQ.Full` | src/cpp/contrib/spdlog/include/spdlog/details/circular_q.h:87-93 | Exactly if another push would drop something, and never for a disabled ring |
| `CircularQueue.CircularQ.MoveFrom` | src/cpp/contrib/spdlog/include/spdlog/details/circular_q.h:100-113 | Moves view and counter over, and leaves the other ring disabled and valid |
| `RingbufferSinks.RingConserves` | src/cpp/contrib/spdlog/include/spdlog/details/circular_q.h:46-83 | Over any mix of pushes and pops, what was there and was pushed is what left, in order, followed by what is there |
| `RingbufferSinks.RingCounts` | src/cpp/contrib/spdlog/include/spdlog/details/circular_q.h:46-57 | Over any mix the overrun counter is the number of items that left without being popped |
| `RingbufferSinks.PushAllKeepsNewest` | src/cpp/contrib/spdlog/include/spdlog/sinks/ringbuffer_sink.h:53-55 | Pushes alone leave the newest items, as many as there is room for |
| `RingbufferSinks.RingbufferSink.SinkIt` | src/cpp/contrib/spdlog/include/spdlog/sinks/ringbuffer_sink.h:53-55 | Appends the message, dropping the oldest when there is no room |
| `RingbufferSinks.RingbufferSink.LastRaw` | src/cpp/contrib/spdlog/include/spdlog/sinks/ringbuffer_sink.h:26-36 | The newest min(lim, size) items in order, or all of them for lim 0 |
| `MpmcQueue.BlockingQueue.Enqueue` | src/cpp/contrib/spdlog/include/spdlog/details/mpmc_blocking_q.h:31-38 | The lock section of enqueue, first time or awakened, is a step of the protocol: on a queue with room the item is appended, and on a full one nothing changes and the thread waits |
| `MpmcQueue.BlockingQueue.EnqueueNowait` | src/cpp/contrib/spdlog/include/spdlog/details/mpmc_blocking_q.h:41-47 | With room the item is appended; on a full queue the oldest goes and the overrun counter rises by one |
| `MpmcQueue.BlockingQueue.EnqueueIfHaveRoom` | src/cpp/contrib/spdlog/include/spdlog/details/mpmc_blocking_q.h:49-64 | With room the item is appended and a consumer is to be notified; on a full queue nothing changes and the item is to be counted as discarded |
| `MpmcQueue.BlockingQueue.CountDiscard` | src/cpp/contrib/spdlog/include/spdlog/details/mpmc_blocking_q.h:61-63 | A rejected item is counted once |
| `MpmcQueue.BlockingQueue.Dequeue` | src/cpp/contrib/spdlog/include/spdlog/details/mpmc_blocking_q.h:68-90 | The lock section of both dequeues: takes the oldest item, or waits, or after a timeout gives up, exactly when the ring is empty |
| `MpmcProtocol.StepKeepsWakeup` | src/cpp/contrib/spdlog/include/spdlog/details/mpmc_blocking_q.h:31-90 | Every atomic step (lock section, notify, spurious wakeup, timeout, start of a call) keeps: with a consumer blocked the items are covered by pending notifications and awake consumers, and likewise for producers and free slots |
| `MpmcProtocol.NeverLosesWakeup` | src/cpp/contrib/spdlog/include/spdlog/details/mpmc_blocking_q.h:31-90 | So it holds after any interleaving of any number of threads |
| `MpmcProtocol.QuiescentIsJustified` | src/cpp/contrib/spdlog/include/spdlog/details/mpmc_blocking_q.h:31-90 | Once nothing is under way, consumers wait only on an empty queue and producers only on a full one, so with a capacity of at least 1 never both |
| `MpmcProtocol.RunConserves` | src/cpp/contrib/spdlog/include/spdlog/details/mpmc_blocking_q.h:31-90 | Over any interleaving, what was pushed is what left followed by what is queued, with the counters accounting for the overrun and the rejected |
| `MpmcProtocol.DequeuedInOrder` | src/cpp/contrib/spdlog/include/spdlog/details/mpmc_blocking_q.h:68-90 | What was dequeued is a subsequence, in order, of what left the queue, and the rest of that was overrun |
| `MpmcProtocol.QueueConserves` | src/cpp/contrib/spdlog/include/spdlog/details/mpmc_blocking_q.h:31-90 | From an empty queue: dequeued is an in-order subsequence of pushed, pushed counts dequeued, queued and overrun, rejected counts discards; without overrun_oldest, dequeued followed by queued is exactly what was pushed |
| `MpmcProtocol.RunNeverOverruns` | src/cpp/contrib/spdlog/include/spdlog/details/mpmc_blocking_q.h:31-64 | As long as nobody calls enqueue_nowait there is no thread about to overrun |
| `MpmcProtocol.StepMeans` | src/cpp/contrib/spdlog/include/spdlog/details/mpmc_blocking_q.h:31-90 | An item is turned away only by a discarding call that finds the queue full, and overrun only by an overrunning call that does; with room every push pushes, and every thread that takes the mutex to take an item out takes the oldest if there is one, also after a timeout |
| `MpmcProtocol.RunMeans` | src/cpp/contrib/spdlog/include/spdlog/details/mpmc_blocking_q.h:31-64 | Over any run what is turned away is what discarding calls found no room for, in order, and the overruns are the overrunning calls that found the queue full |
| `MpmcProtocol.QueueAccounts` | src/cpp/contrib/spdlog/include/spdlog/details/mpmc_blocking_q.h:31-64 | Over any run every item is, as often as calls came with it, pushed, turned away or still with a thread |
| `ThreadPool.StepKeeps` | src/cpp/contrib/spdlog/include/spdlog/details/thread_pool-inl.h:80-124 | Every step of workers, clients and destructor keeps: live workers are the terminate messages queued plus those not yet posted, terminate messages come last, and every message taken is processed or in a worker's hands |
| `PoolShutdown.CreateInv` | src/cpp/contrib/spdlog/include/spdlog/details/thread_pool-inl.h:16-33 | A pool of 1 to 1000 threads starts in that state |
| `PoolShutdown.RunKeeps` | src/cpp/contrib/spdlog/include/spdlog/details/thread_pool-inl.h:45-124 | So it holds in every state that the pool can reach |
| `PoolShutdown.Drained` | src/cpp/contrib/spdlog/include/spdlog/details/thread_pool-inl.h:45-56 | When all workers have left, the queue is empty, everything pushed was dequeued or overrun, each worker took one terminate message, and every dequeued message was processed as often as it was dequeued |
| `PoolShutdown.NeverStuck` | src/cpp/contrib/spdlog/include/spdlog/details/thread_pool-inl.h:46-53 | With a capacity of at least 1 and workers left, some thread can always take a productive step: the blocking posts and the joins do not deadlock |
| `PoolShutdown.ShutdownEnds` | src/cpp/contrib/spdlog/include/spdlog/details/thread_pool-inl.h:46-53 | Productive steps use up a measure that spurious wakeups raise by at most one each, so under any schedule with finitely many of those the shutdown ends |
| `PoolMessages.CreateMeans` | src/cpp/contrib/spdlog/include/spdlog/details/thread_pool-inl.h:16-33 | The constructor throws exactly for no threads or more than 1000, and else makes that many workers and the queue asked for |
| `PoolMessages.ClientsMayPost` | src/cpp/contrib/spdlog/include/spdlog/details/thread_pool-inl.h:58-93 | Until the destructor starts every idle client may post any work with any policy, and a worker without a message may ask for one |
| `PoolMessages.AllAccountedFor` | src/cpp/contrib/spdlog/include/spdlog/details/thread_pool-inl.h:45-124 | When all workers have left, every message was, as often as it was posted, processed, turned away by a discarding post that found the queue full, or overrun |
| `PoolMessages.BlockingLosesNothing` | src/cpp/contrib/spdlog/include/spdlog/details/thread_pool-inl.h:45-124 | With blocking posts every message is processed exactly as often as it was posted |
| `FileNames.LastIndex` | src/cpp/contrib/spdlog/include/spdlog/details/file_helper-inl.h:134 | The last place of the character, or the end if there is none |
| `FileNames.SplitByExtension` | src/cpp/contrib/spdlog/include/spdlog/details/file_helper-inl.h:132-150 | The two parts always make up the name |
| `FileNames.HasExtension` | src/cpp/contrib/spdlog/include/spdlog/details/file_helper-inl.h:132-150 | Exactly which dots split a name: not the first or last character, none after it, and no folder separator right before it or after it |
| `FileNames.DecimalInjective` | src/cpp/contrib/spdlog/include/spdlog/sinks/rotating_file_sink-inl.h:63 | Different indices are printed differently |
| `FileNames.DecimalReads` | src/cpp/contrib/spdlog/include/spdlog/sinks/rotating_file_sink-inl.h:63 | The digits of an index are 0 to 9, read as the index, and have no zero in front |
| `FileNames.CalcFilenameInjective` | src/cpp/contrib/spdlog/include/spdlog/sinks/rotating_file_sink-inl.h:55-64 | Different indices give different file names, for every base name with or without extension |
| `FileNames.CalcFilenameShape` | src/cpp/contrib/spdlog/include/spdlog/sinks/rotating_file_sink-inl.h:55-64 | A dot and the index stand right before the dot of the extension, or at the end of a name without one |
| `FileNames.CalcFilenameExample` | src/cpp/contrib/spdlog/include/spdlog/sinks/rotating_file_sink-inl.h:52-53 | logs/mylog.txt becomes logs/mylog.3.txt |
| `RotatingFile.NamesDiffer` | src/cpp/contrib/spdlog/include/spdlog/sinks/rotating_file_sink-inl.h:55-64 | The names used by one sink coincide only for the same index |
| `RotatingFile.ShiftMoves` | src/cpp/contrib/spdlog/include/spdlog/sinks/rotating_file_sink-inl.h:114-135 | What every numbered file holds after the loop, gaps in the numbering included, without the loop |
| `RotatingFile.ShiftKeeps` | src/cpp/contrib/spdlog/include/spdlog/sinks/rotating_file_sink-inl.h:114-135 | Files with other names are not touched by the loop |
| `RotatingFile.RotationKeepsHistory` | src/cpp/contrib/spdlog/include/spdlog/sinks/rotating_file_sink-inl.h:109-137 | Read from the highest index down to 0, a rotation loses exactly the content it deletes and that from the old end, with no change elsewhere |
| `RotatingFile.StepKeepsHistory` | src/cpp/contrib/spdlog/include/spdlog/sinks/rotating_file_sink-inl.h:73-96 | The same for every operation, with the logged record appended |
| `RotatingFile.HistoryIsSuffix` | src/cpp/contrib/spdlog/include/spdlog/sinks/rotating_file_sink-inl.h:73-137 | Over whole runs the files always read as a suffix of the original contents and everything logged, and the text in front of it is exactly what rotations deleted |
| `RotatingFile.ForeignFilesStay` | src/cpp/contrib/spdlog/include/spdlog/sinks/rotating_file_sink-inl.h:109-147 | No run touches a file whose name is not one of the sink's |
| `RotatingFile.StepTracked` | src/cpp/contrib/spdlog/include/spdlog/sinks/rotating_file_sink-inl.h:73-96 | The size never underestimates the active file, rotate_now included |
| `RotatingFile.OpenedTracked` | src/cpp/contrib/spdlog/include/spdlog/sinks/rotating_file_sink-inl.h:27-50 | Nor does it after construction, with or without rotation on open |
| `RotatingFile.OpenedMeans` | src/cpp/contrib/spdlog/include/spdlog/sinks/rotating_file_sink-inl.h:27-50 | For every disk: opening makes a missing file and keeps what is there, or, with rotation on open and something there, moves every file up and starts empty; nothing is lost but what that rotation deletes; the size is right, and without rotation no other file changes |
| `RotatingFile.OpeningSpares` | src/cpp/contrib/spdlog/include/spdlog/sinks/rotating_file_sink-inl.h:27-50 | Foreign files are untouched by opening |
| `RotatingFile.LifeKeepsHistory` | src/cpp/contrib/spdlog/include/spdlog/sinks/rotating_file_sink-inl.h:27-123 | From the disk before construction on, over any run: what the rotations deleted followed by what the files hold is what they held before followed by everything logged |
| `RotatingFile.LogMeans` | src/cpp/contrib/spdlog/include/spdlog/sinks/rotating_file_sink-inl.h:79-96 | A record goes behind what is there if the size says that it fits, or if the file is empty; otherwise every file moves up one index and the record stands alone |
| `RotatingFile.RotateNowMeans` | src/cpp/contrib/spdlog/include/spdlog/sinks/rotating_file_sink-inl.h:73-76 | Every file moves up one index and the active one is empty |
| `RotatingFile.LogBounds` | src/cpp/contrib/spdlog/include/spdlog/sinks/rotating_file_sink-inl.h:79-96 | After a record the active file is within the limit or holds that record alone |
| `RotatingFile.SizesBounded` | src/cpp/contrib/spdlog/include/spdlog/sinks/rotating_file_sink-inl.h:73-137 | Over whole runs with any rotate_now, every file of the sink is within the limit, or one logged record, or content that was there before |
| `RotatingFile.ExactWithoutRotateNow` | src/cpp/contrib/spdlog/include/spdlog/sinks/rotating_file_sink-inl.h:79-96 | Without rotate_now an exact size stays exact, so a record rotates exactly if it does not fit behind what is in a file that is not empty |
| `RotatingFile.RotateNowGoesStale` | src/cpp/contrib/spdlog/include/spdlog/sinks/rotating_file_sink-inl.h:73-76 | From any sink that does not underestimate, stale or not: after rotate_now the size is exact if and only if it was 0 |
| `RotatingFile.StepExact` | src/cpp/contrib/spdlog/include/spdlog/sinks/rotating_file_sink-inl.h:73-96 | The same for every operation: a record leaves the size exact if and only if it rotates or the size was exact before |
| `RotatingFile.ExactIff` | src/cpp/contrib/spdlog/include/spdlog/sinks/rotating_file_sink-inl.h:73-96 | Over whole runs from any such sink: the size ends exact if and only if the last rotate_now at a size other than 0 is followed by a record that rotates, or there is neither and it began exact |
| `RotatingFile.StaysStale` | src/cpp/contrib/spdlog/include/spdlog/sinks/rotating_file_sink-inl.h:73-76 | Two calls of rotate_now: before the second the active file is empty, and the size is wrong before and after it |
| `RotatingFile.EarlyRotation` | src/cpp/contrib/spdlog/include/spdlog/sinks/rotating_file_sink-inl.h:87-93 | A run where two records that fit together end up in two files because of that |
| `RotatingFile.RotatingFileSink.Create` | src/cpp/contrib/spdlog/include/spdlog/sinks/rotating_file_sink-inl.h:27-50 | Throws exactly for a limit of 0 or more than 200000 files, and else is the opened sink of OpenedMeans |
| `RotatingFile.RotatingFileSink.RenameFile` | src/cpp/contrib/spdlog/include/spdlog/sinks/rotating_file_sink-inl.h:142-147 | The target is replaced and the source is gone |
| `RotatingFile.RotatingFileSink.Rotate` | src/cpp/contrib/spdlog/include/spdlog/sinks/rotating_file_sink-inl.h:109-137 | The loop over indices downwards is the rotation about which the history lemmas speak |
| `RotatingFile.RotatingFileSink.RotateNow` | src/cpp/contrib/spdlog/include/spdlog/sinks/rotating_file_sink-inl.h:73-76 | Rotates and leaves the size as it was |
| `RotatingFile.RotatingFileSink.SinkIt` | src/cpp/contrib/spdlog/include/spdlog/sinks/rotating_file_sink-inl.h:79-96 | The step about which the history lemmas speak, with the size bound of the active file |
| `OpticalDevices.StepKeeps` | src/cpp/contrib/satellite/model/optical-device.cc:310-376 | Every send, completion, attach, detach and passing of time keeps the whole invariant, and the asserts of the code hold in it |
| `OpticalDevices.RunKeeps` | src/cpp/contrib/satellite/model/optical-device.cc:595-662 | In every reachable state: BUSY iff there is a current packet iff exactly one completion is pending, READY implies an empty queue, accepted packets are started once each in order, accepted is started plus queued, and each start is when a single server would start it |
| `OpticalDevices.RunLinks` | src/cpp/contrib/satellite/model/optical-device.cc:468-481 | Over any run the link is up with a channel if and only if the last attach or detach attached one |
| `OpticalDevices.SendAccepted` | src/cpp/contrib/satellite/model/optical-device.cc:310-376 | After any run a packet is accepted if and only if the last attach or detach attached a channel and fewer packets wait than the queue takes; it is started at once exactly if none is on its way; a packet turned away changes nothing |
| `OpticalDevices.DrainedSendsAll` | src/cpp/contrib/satellite/model/optical-device.cc:632-662 | If the pending events are left to run the device ends READY with every accepted packet sent in order, link or no link |
| `OpticalDevices.OpticalDevice.Begin` | src/cpp/contrib/satellite/model/optical-device.cc:595-630 | Schedules the completion even when the channel is gone, and says whether the channel took the packet |
| `OpticalDevices.OpticalDevice.Send` | src/cpp/contrib/satellite/model/optical-device.cc:310-376 | Accepts exactly when the link is up and the queue has room, starts at once exactly when READY, and says whether the packet got that far |
| `OpticalDevices.OpticalDevice.Finish` | src/cpp/contrib/satellite/model/optical-device.cc:632-662 | The current packet is done and the next one of the queue, if any, is started |
| `OpticalDevices.OpticalDevice.Complete` | src/cpp/contrib/satellite/model/optical-device.cc:632-662 | Completion keeps the invariant and is the step about which the run lemmas speak |
| `OpticalDevices.OpticalDevice.NotifyLinkUp` | src/cpp/contrib/satellite/model/optical-device.cc:188-194 | The link is up |
| `OpticalDevices.OpticalDevice.Attach` | src/cpp/contrib/satellite/model/optical-device.cc:468-473 | The link is up and the channel is the given one; nothing else changes, in any state of transmission |
| `OpticalDevices.OpticalDevice.Detach` | src/cpp/contrib/satellite/model/optical-device.cc:475-481 | The link goes down and the transmission under way is left to complete |
| `IniCompare.IsLess` | src/cpp/contrib/simpleini/model/SimpleIni.h:2857-2891 | Both comparison loops decide the specified order, with or without folding case, whether char is signed or not |
| `IniCompare.LessIff` | src/cpp/contrib/simpleini/model/SimpleIni.h:2857-2891 | The order is that of a dictionary: the first difference decides, and a text comes before what it begins |
| `IniCompare.Letters` | src/cpp/contrib/simpleini/model/SimpleIni.h:2874-2880 | A to Z lose their case and no other character changes |
| `IniCompare.CodeOrder` | src/cpp/contrib/simpleini/model/SimpleIni.h:2857-2871 | Characters of a byte stand in the order of their numbers, those beyond ASCII first where char is signed |
| `IniCompare.SameIsFoldedEqual` | src/cpp/contrib/simpleini/model/SimpleIni.h:2857-2891 | Two names are the same to the store exactly if they fold to the same text |
| `IniCompare.LessIrreflexive` | src/cpp/contrib/simpleini/model/SimpleIni.h:2857-2891 | The order is irreflexive |
| `IniCompare.LessTransitive` | src/cpp/contrib/simpleini/model/SimpleIni.h:2857-2891 | It is transitive |
| `IniCompare.NotLessTransitive` | src/cpp/contrib/simpleini/model/SimpleIni.h:2857-2891 | So is being not less: it is a strict weak order |
| `IniCompare.LessAsymmetric` | src/cpp/contrib/simpleini/model/SimpleIni.h:2857-2891 | Never both ways |
| `IniStore.InsertSorted` | src/cpp/contrib/simpleini/model/SimpleIni.h:2097-2107 | Inserting behind the equal ones keeps a multimap sorted |
| `IniStore.NamedInsert` | src/cpp/contrib/simpleini/model/SimpleIni.h:2097-2107 | An inserted entry becomes the last of its name and the entries of other names stay |
| `IniStore.NamedIsRun` | src/cpp/contrib/simpleini/model/SimpleIni.h:2376-2388 | The entries of a name are the stretch between the two bounds of the name |
| `IniStore.NamedWithout` | src/cpp/contrib/simpleini/model/SimpleIni.h:2757-2776 | Deleting a key leaves nothing of that name and everything of the others |
| `IniStore.WithoutSorted` | src/cpp/contrib/simpleini/model/SimpleIni.h:2757-2776 | What is left of a deletion is sorted and was there before |
| `IniStore.WithoutMeans` | src/cpp/contrib/simpleini/model/SimpleIni.h:2757-2776 | Exactly the entries of the key go, or of them those whose value compares equal; every other one stays as often as it was there |
| `IniStore.AddKeyMeans` | src/cpp/contrib/simpleini/model/SimpleIni.h:2056-2125 | What the entries of every name are after adding a key: forced replacement leaves one, multi-key appends one, and otherwise the value is replaced in place |
| `IniStore.AddKeySorted` | src/cpp/contrib/simpleini/model/SimpleIni.h:2056-2125 | Adding a key keeps the section sorted |
| `IniStore.EarliestIsLeast` | src/cpp/contrib/simpleini/model/SimpleIni.h:2062-2083 | Forced replacement keeps the least order of what it replaces, with the comment that stood there |
| `IniStore.AddKeyTally` | src/cpp/contrib/simpleini/model/SimpleIni.h:2056-2125 | No order number appears more often than before, but for the one just drawn |
| `IniStore.AllKeysCount` | src/cpp/contrib/simpleini/model/SimpleIni.h:2458-2485 | The listed keys are as many as there are different names up to folding |
| `IniStore.UniqueCount` | src/cpp/contrib/simpleini/model/SimpleIni.h:2395-2426 | Without duplicates the number of entries is the number of different names |
| `IniSections.AddEntryMeans` | src/cpp/contrib/simpleini/model/SimpleIni.h:2018-2125 | What every section of the store has and holds after an AddEntry, also of the sections not named |
| `IniSections.AddEntryNames` | src/cpp/contrib/simpleini/model/SimpleIni.h:2018-2065 | A new section gets its name, the next number, and a comment only without a key; a section that is there keeps all three |
| `IniSections.DeleteSays` | src/cpp/contrib/simpleini/model/SimpleIni.h:2735-2804 | Deletion reports success exactly if the section is there and, given a key, an entry matches; otherwise nothing changes |
| `IniSections.DeleteMeans` | src/cpp/contrib/simpleini/model/SimpleIni.h:2735-2804 | What every section has and holds after a successful deletion, and when the emptied section goes too |
| `IniSections.DeleteNames` | src/cpp/contrib/simpleini/model/SimpleIni.h:2735-2804 | A section that stays keeps its name, comment and number |
| `IniSections.AddEntryOk` | src/cpp/contrib/simpleini/model/SimpleIni.h:2018-2125 | Keeps the invariant: sections sorted and unique, keys sorted, order numbers all different and not above the counter |
| `IniSections.DeleteOk` | src/cpp/contrib/simpleini/model/SimpleIni.h:2735-2804 | Keeps the invariant |
| `IniText.ScanIsFirst` | src/cpp/contrib/simpleini/model/SimpleIni.h:1649-1651 | Every scan stops at the first character that it looks for |
| `IniText.Comments` | src/cpp/contrib/simpleini/model/SimpleIni.h:1859-1987 | A comment block is read forward, and its text is never longer than what was read: the write cursor cannot pass the read cursor |
| `IniText.Lines` | src/cpp/contrib/simpleini/model/SimpleIni.h:1859-1987 | The same for the lines of a value |
| `IniParse.NextEntry` | src/cpp/contrib/simpleini/model/SimpleIni.h:1610-1761 | Finding an entry always consumes something and ends inside the text, so loading terminates |
| `IniLoad.LoadComment` | src/cpp/contrib/simpleini/model/SimpleIni.h:1859-1987 | In place: finds a comment exactly if one starts here; the stored string is the text of the block, reading goes on behind it, and everything not yet read and everything in front is untouched |
| `IniLoad.LoadTagged` | src/cpp/contrib/simpleini/model/SimpleIni.h:1859-1987 | In place, for a value: finds exactly the text up to the tag or the end of the data, with newlines made one character, and leaves the unread text as it was |
| `IniLoad.TagSeen` | src/cpp/contrib/simpleini/model/SimpleIni.h:1938-1950 | What is compared with the tag: without its trailing white space exactly while no line has been moved |
| `IniTags.IgnoredUnlessHidden` | src/cpp/contrib/simpleini/model/SimpleIni.h:1880-1950 | White space behind the end tag is ignored, as the comment in the source has it, if and only if there is none on the line of the tag, or the tag is not empty and no line of the block before it ends with CRLF |
| `IniTags.HiddenText` | src/cpp/contrib/simpleini/model/SimpleIni.h:1924-1943 | A block of two lines where the tag is not found, and is when the CR is left out |
| `IniTags.HiddenEmptyTag` | src/cpp/contrib/simpleini/model/SimpleIni.h:1936-1943 | A block with an empty tag and white space in its place, where the tag is not found, and is when the white space is left out |
| `IniTags.BeforeTagUnlessFirst` | src/cpp/contrib/simpleini/model/SimpleIni.h:1966-1984 | A block that has its tag gives the lines before the tag if and only if the tag is not the first line |
| `IniTags.FirstLineText` | src/cpp/contrib/simpleini/model/SimpleIni.h:1966-1984 | Three blocks with the tag on the first line: all the rest of the text, the tag itself, and nothing |
| `IniComments.CommentMeans` | src/cpp/contrib/simpleini/model/SimpleIni.h:1874-1986 | The stored comment is the lines of the block, trimmed of leading white space after gaps, joined by single newlines, with the last terminator dropped when text follows |
| `IniComments.BlockIsMaximal` | src/cpp/contrib/simpleini/model/SimpleIni.h:1887-1918 | The block ends only where no comment follows, neither directly nor, if blank lines are allowed, behind them |
| `IniComments.LinesAreComments` | src/cpp/contrib/simpleini/model/SimpleIni.h:1887-1918 | Every line of it is a comment, or blank where blank lines are allowed |
| `IniLines.KeyIsFound` | src/cpp/contrib/simpleini/model/SimpleIni.h:1676-1760 | In characters: a key and a plain value are what stands before and behind the first equals sign, without the blanks and tabs around them, and reading goes on in the next line |
| `IniLines.HeaderIsFound` | src/cpp/contrib/simpleini/model/SimpleIni.h:1640-1672 | A name is what stands between the brackets, without the blanks and tabs around it |
| `IniLines.OtherIsSkipped` | src/cpp/contrib/simpleini/model/SimpleIni.h:1676-1693 | A line without an equals sign, or that starts with one, is no entry |
| `IniGrammar.CommentIs` | src/cpp/contrib/simpleini/model/SimpleIni.h:1874-1986 | A comment is its lines from the mark on, with a newline for each line break and each blank line between them |
| `IniGrammar.LinesLoad` | src/cpp/contrib/simpleini/model/SimpleIni.h:1484-1561 | Any text of blank lines, comments behind a semicolon or a number sign, headers, keys with plain, quoted or spread values, and lines that are none of these, with line feeds or CRLF, makes exactly the AddEntry calls of its headers and keys, in order, each with the comment that waits for it |
| `IniGrammar.TextLoads` | src/cpp/contrib/simpleini/model/SimpleIni.h:1484-1605 | The same for a whole text, whose first comment is that of the file if it starts at once and there is none yet |
| `IniGrammar.HashText` | src/cpp/contrib/simpleini/model/SimpleIni.h:1252-1254 | A text where a line that looks like a key is the comment of the next one, behind a number sign |
| `IniFind.ReadComment` | src/cpp/contrib/simpleini/model/SimpleIni.h:1633-1636 | Reading a comment in place keeps all positions that were found so far |
| `IniFind.ReadHeader` | src/cpp/contrib/simpleini/model/SimpleIni.h:1638-1675 | The name is terminated in place and is the string between the brackets, trimmed |
| `IniFind.ReadKey` | src/cpp/contrib/simpleini/model/SimpleIni.h:1677-1757 | The key is terminated in place, trimmed, and read with its value |
| `IniFind.ReadValue` | src/cpp/contrib/simpleini/model/SimpleIni.h:1705-1747 | Plain, quoted and multi-line values in place are the specified value |
| `IniFind.FindEntry` | src/cpp/contrib/simpleini/model/SimpleIni.h:1610-1761 | The whole in-place search: section, key, value and comment pointers stand at strings that are the specified entry, all ended in the part that has been read but for a value that is all the rest of the text; earlier strings and the unread text are untouched |
| `IniFind.Survives` | src/cpp/contrib/simpleini/model/SimpleIni.h:1546-1558 | A string that ends in the part that has been read stays what it is however reading goes on |
| `IniFind.NextEntryAgrees` | src/cpp/contrib/simpleini/model/SimpleIni.h:1610-1761 | What is found depends on the unread text only, so what was written over earlier does not matter |
| `IniValues.SafeReadsBack` | src/cpp/contrib/simpleini/model/SimpleIni.h:2658-2683 | A safe value comes back as it was, written plain, quoted or as lines, and reading goes on behind it |
| `IniValues.ReadsBackIffSafe` | src/cpp/contrib/simpleini/model/SimpleIni.h:2658-2683 | And only a safe one does: the exact set of values that survive, for all settings of quoting and multi-line |
| `IniEntries.ReadIsSafe` | src/cpp/contrib/simpleini/model/SimpleIni.h:1610-1761 | On any text whatever every key found, and every name of a header found, is trimmed and free of delimiters and newlines |
| `IniHeaders.SectionOfKey` | src/cpp/contrib/simpleini/model/SimpleIni.h:1648-1656 | The section of a found key is the one the search began in if and only if the key comes before any header, said on the lines of the text; otherwise it has a newline in it |
| `IniHeaders.UnclosedHeader` | src/cpp/contrib/simpleini/model/SimpleIni.h:1653-1656 | A header that is not closed is skipped, as the source means it to be, if and only if no key comes before the next header or the end, or the section that the pointer was in before is the very text that the open header makes; that is never so for a section whose name has no newline. Otherwise that key, its value, its comment and the place behind it are the same, and its section runs from the header over a newline |
| `IniHeaders.PointerMatters` | src/cpp/contrib/simpleini/model/SimpleIni.h:1610-1761 | On any text only the section of a found key depends on where the section pointer stands |
| `IniHeaders.CommentLines` | src/cpp/contrib/simpleini/model/SimpleIni.h:1633-1636 | A comment block of any shape is as many comment and blank lines to what follows it |
| `IniHeaders.OpenHeaderText` | src/cpp/contrib/simpleini/model/SimpleIni.h:1653-1656 | A text of two lines where it shows |
| `IniEntries.KeyLineIffSafe` | src/cpp/contrib/simpleini/model/SimpleIni.h:2651-2683 | A written key and value are found again exactly if both are safe |
| `IniEntries.HeaderIffSafe` | src/cpp/contrib/simpleini/model/SimpleIni.h:2612-2621 | A written section name is found again exactly if it is safe |
| `IniSaved.ValueInCharacters` | src/cpp/contrib/simpleini/model/SimpleIni.h:2655-2684 | How a value is written, in characters: in quotes, between END_OF_TEXT lines, or as it is, and when which |
| `IniSaved.SafeInCharacters` | src/cpp/contrib/simpleini/model/SimpleIni.h:1739-1757 | Which values come back, in characters |
| `IniSaved.SectsLinesText` | src/cpp/contrib/simpleini/model/SimpleIni.h:2594-2691 | What is written for a content, line by line: gaps, comments, headers and keys with their values |
| `IniSaved.SavedLoads` | src/cpp/contrib/simpleini/model/SimpleIni.h:1545-1549 | Loading what was saved makes exactly the AddEntry calls for the saved sections and items in their order, each with its comment, and gives back the file comment, unless the first section has a comment and the file has none |
| `IniSaved.CommentsAreSafe` | src/cpp/contrib/simpleini/model/SimpleIni.h:1874-1918 | Every comment that is read is one that can be saved and read again |
| `IniSaved.FoundCommentSafe` | src/cpp/contrib/simpleini/model/SimpleIni.h:1610-1761 | So is every comment that an entry is found with |
| `IniContent.ByOrderHas` | src/cpp/contrib/simpleini/model/SimpleIni.h:2558-2567 | Sorting by load order keeps every entry |
| `IniContent.ByOrderSorted` | src/cpp/contrib/simpleini/model/SimpleIni.h:2558-2567 | Distinct orders come out strictly increasing |
| `IniBuild.StartsSection` | src/cpp/contrib/simpleini/model/SimpleIni.h:2018-2050 | A new section comes last in load order, without items |
| `IniBuild.NewKeyItem` | src/cpp/contrib/simpleini/model/SimpleIni.h:2056-2125 | A new key makes one more item, the last |
| `IniBuild.OldKeyItem` | src/cpp/contrib/simpleini/model/SimpleIni.h:2097-2125 | With multi-key, one more value of the last key makes one more item, the last |
| `IniBuild.FillsSection` | src/cpp/contrib/simpleini/model/SimpleIni.h:2056-2125 | An item whose key is new, or with multi-key that of the item before, comes last in its section and changes nothing else of the whole content |
| `IniGains.LoadGains` | src/cpp/contrib/simpleini/model/SimpleIni.h:1545-1549 | Loading from any place puts no more into a store than the keys and values that are found line by line from there |
| `IniGains.ContentGains` | src/cpp/contrib/simpleini/model/SimpleIni.h:2567-2600 | The content that is saved is no more than what is in the store: sorting, the unnamed section first and one value per key neither repeat nor enlarge anything |
| `IniChunks.FoundBound` | src/cpp/contrib/simpleini/model/SimpleIni.h:1610-1761 | From any line of a saved text, also from inside a value, no more is found than is saved from there on, whatever tags and headers the lines of values look like |
| `IniMarks.MarkedIffFirst` | src/cpp/contrib/simpleini/model/SimpleIni.h:2554-2556 | A text that is saved without a signature begins with one if and only if it starts with a key of the section without a name that does |
| `IniMarks.MarkedFound` | src/cpp/contrib/simpleini/model/SimpleIni.h:1494-1499 | Without the three characters that loading takes away, less is found in the text than was saved, whatever is left of the key (a key, a comment, a header, nothing) and whatever its value is |
| `IniMarks.MarkedLost` | src/cpp/contrib/simpleini/model/SimpleIni.h:1494-1499 | So every content that begins with such a key does not come back from a text without a signature |
| `IniRoundTrip.RoundTrip` | src/cpp/contrib/simpleini/model/SimpleIni.h:2546-2720 | Every store, single-key or multi-key, of safe names, keys, values and comments comes back with its file comment from the saved text, with the same sections, keys, values and comments in the same order, if and only if its section without a name, if any, has a key; the file has a comment or the first section has none; and the text starts with a signature or a comment or its first key does not begin with the signature. Saving again gives the same text |
| `IniRoundTrip.SectsRoundTrip` | src/cpp/contrib/simpleini/model/SimpleIni.h:1484-1561 | The same for a content by itself; the loaded store keeps its invariant in every case |
| `IniRoundTrip.EmptyLeavesNothing` | src/cpp/contrib/simpleini/model/SimpleIni.h:2606-2613 | A section without name and keys is not in the text, but for a gap, and makes no calls |
| `IniRoundTrip.MarkedKey` | src/cpp/contrib/simpleini/model/SimpleIni.h:1494-1499 | A content with one safe key that begins with the signature, which comes back with a shorter key |
| `IniRoundTrip.MisplacedComment` | src/cpp/contrib/simpleini/model/SimpleIni.h:1583-1605 | A store whose first section has a comment and the file none: the comment comes back as that of the file |
| `SimpleInis.EraseRun` | src/cpp/contrib/simpleini/model/SimpleIni.h:2757-2776 | The deletion loop deletes exactly the entries of the key, or of these the ones with that value, and says whether there were any |
| `SimpleInis.EarliestOfRun` | src/cpp/contrib/simpleini/model/SimpleIni.h:2062-2083 | The loop over a key's entries finds the least order and its comment |
| `SimpleInis.KeysOfRuns` | src/cpp/contrib/simpleini/model/SimpleIni.h:2458-2485 | The loop lists the first entry of every run of equal names |
| `SimpleInis.CountRuns` | src/cpp/contrib/simpleini/model/SimpleIni.h:2395-2426 | The loop counts the different names |
| `SimpleInis.ValuesOfRun` | src/cpp/contrib/simpleini/model/SimpleIni.h:2360-2391 | All values of the key with multi-key, and only the first without |
| `SimpleInis.LooksMultiLine` | src/cpp/contrib/simpleini/model/SimpleIni.h:1778-1811 | The loop decides whether a value has outer white space or a newline |
| `SimpleInis.LooksQuotable` | src/cpp/contrib/simpleini/model/SimpleIni.h:1815-1846 | The loop decides whether a value starts with white space, or ends with it and has no newline |
| `SimpleInis.OutputMultiLineText` | src/cpp/contrib/simpleini/model/SimpleIni.h:2695-2720 | Every line with a newline behind it |
| `SimpleInis.FindFileComment` | src/cpp/contrib/simpleini/model/SimpleIni.h:1583-1605 | A comment at the very start becomes the file comment unless there is one already, and the text behind it is untouched |
| `SimpleInis.SimpleIni.MakeSection` | src/cpp/contrib/simpleini/model/SimpleIni.h:2031-2050 | Makes the section exactly if it is not there |
| `SimpleInis.SimpleIni.MakeKey` | src/cpp/contrib/simpleini/model/SimpleIni.h:2056-2125 | Adds, replaces or updates, and says whether the key is new |
| `SimpleInis.SimpleIni.AddEntry` | src/cpp/contrib/simpleini/model/SimpleIni.h:2018-2125 | Keeps the invariant, is the step about which the store lemmas speak, and says whether the section or the key is new |
| `SimpleInis.SimpleIni.DeleteValue` | src/cpp/contrib/simpleini/model/SimpleIni.h:2735-2804 | Keeps the invariant and is the deletion about which the store lemmas speak |
| `SimpleInis.SimpleIni.Delete` | src/cpp/contrib/simpleini/model/SimpleIni.h:2724-2731 | Deletion without a value |
| `SimpleInis.SimpleIni.GetAllKeys` | src/cpp/contrib/simpleini/model/SimpleIni.h:2458-2485 | The keys exactly if the section is there |
| `SimpleInis.SimpleIni.GetSectionSize` | src/cpp/contrib/simpleini/model/SimpleIni.h:2395-2426 | Without the section -1; otherwise, with multi-key or not, the length of GetAllKeys, which is the number of different keys |
| `SimpleInis.SimpleIni.GetAllValues` | src/cpp/contrib/simpleini/model/SimpleIni.h:2360-2391 | Found exactly if the key has an entry, and then all of them with multi-key and the first without |
| `SimpleInis.SimpleIni.SaveKeys` | src/cpp/contrib/simpleini/model/SimpleIni.h:2623-2685 | The keys of a section in load order, each with all its values |
| `SimpleInis.SimpleIni.SaveSection` | src/cpp/contrib/simpleini/model/SimpleIni.h:2594-2685 | Gap, comment, header and keys of one section |
| `SimpleInis.SimpleIni.Save` | src/cpp/contrib/simpleini/model/SimpleIni.h:2546-2691 | The written text is the specified text of the content, the section without a name first, the others in load order, behind a signature if it is asked for and the store is in UTF-8 |
| `SimpleInis.SimpleIni.LoadData` | src/cpp/contrib/simpleini/model/SimpleIni.h:1484-1561 | One signature in front is taken away and makes a store UTF-8 that has not loaded anything yet; the in-place loop over the mutable buffer leaves the store that the specified loading gives, with the invariant kept, from any store |

## Left out

Transcoding and conversion:

- Source buffers are sequences, since the converters only read them; targets are arrays.
- Surrogates as input text: `RoundTrips` speaks about scalar values. What lenient conversion does with a lone surrogate
  is stated turn by turn in `Transcoding.AnyTurnDenotes`.
- `Resuming` states the calls for targets of any sizes that hold at least one character; smaller ones make no progress.
- The multi-byte (`mbstowcs`), ICU and Windows conversions of `SimpleIni.h` and its `SizeFromStore` and `SizeToStore`
  for them.
- SizeToStoreSuffices32: the overflow of `size_t` in six times the length plus one is not modelled, nor is running out
  of memory.

Asynchronous logging:

- The branch for MinGW of the queue, `reset_overrun_counter` and `reset_discard_counter`, and reading sizes and counters
  from other threads.
- Time: a wait with a timeout may end at any step while it waits.
- The pool's callbacks for starting and stopping threads; exceptions thrown by sinks; which thread of several waiting is
  notified is left to the schedule.
- QueueConserves: counters do not wrap around.
- ShutdownEnds: that no step is put off for ever is the scheduler's business, so the bound is on steps taken.
- Clients are done posting when the destructor starts, which the program's owner has to see to.
- `last_formatted` and the formatters.

Rotating files:

- Renames and opening that fail, retries, sleeps, event handlers, directories and the formatter: records are given as
  text.
- HistoryIsSuffix: the file system is a map that nobody else changes.
- Folder separators are one character, which is a parameter.

Optical device:

- Receiving, headers, trailers, padding and checksums, traces, callbacks and the power budget.
- The data rate: how long a packet takes is part of the packet. Whether the channel takes it is a parameter of each
  step.
- The scheduler is the list of pending completions with their times; events of other devices are left out.

INI files:

- Files and streams; key-only lines, where the value pointer is left as it was.
- The wide characters behind `SetUnicode`: whether a store is in UTF-8 decides about the signature only.
- RoundTrip: a comment of the section without a name, which has no header that it could stand in front of, is not safe.
- LinesLoad: texts with headers that are not closed (`IniHeaders` speaks of them), with a carriage return that no line
  feed follows, with CRLF inside a spread value, or whose last line does not end are not among its texts.
- AddEntry: strings are copied, as for a second load, so a pointer that is given back to `AddEntry` after what it points
  at was deleted, and freeing of copies, are not captured.
- LoadData: strings are copied on a first load too, where the program keeps pointers into its buffer. It makes a
  difference for one kind of value only, a block with its tag on the first line and no white space behind the tag.
- ByOrderSorted: `std::list::sort` is modelled by its result, the entries by increasing order number.
- `std::multimap` is a sorted sequence; `find` gives the first entry of a name, where the library promises any of them.
- LoadComment: with `LoadTagged` the two modes of `LoadMultiLineText`, which is one function in the source.
- `GetValue`, `SetValue` and the accessors that convert numbers and booleans.
- A text is what stands before its first NUL.
