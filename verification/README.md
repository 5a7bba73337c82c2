# Quadcopter: verified model

A quadcopter is flown by two processors of one chip. Linux runs a driver and the host programs; a Cortex-M3 runs the
flight control. They share memory: two ring buffers carry command frames, one in each direction. This project models
that system in Dafny and proves what it is for.

`dafny verify dfyconfig.toml` checks everything.

## What is modelled

- **The ring buffer** (`Ring.dfy`): a class over the shared array with the split copies and the two positions, exact
  about contents. `SharedRing.dfy` and `SharedRingSafety.dfy` take the same two calls apart into single steps (load an
  index, compute the room, move one byte of either copy in any order, publish the index) and prove FIFO for every
  interleaving of one writer and one reader. `RingSolo.dfy` shows that a call in progress can always be finished.
- **The command channel** (`Frames.dfy`, `Channel.dfy`, `ChannelSafety.dfy`, `Driver.dfy`, `Command.dfy`,
  `CommandStream.dfy`, `Copter.dfy`): the host framer, the 512-byte chunk loops of the driver, the ring steps, and the
  resumable frame assembly and dispatch of the firmware, composed into one system whose steps interleave freely. The
  main result is end to end: the commands dispatched are a prefix of the commands sent, and all of them once the
  channel has drained, which it always can (`ChannelProgress.dfy`). The other direction has the same treatment: the
  driver's read loop against a firmware that keeps writing (`ReadChannel.dfy`, `ReadOvershoot.dfy`), the three ring
  writes of a reply against a host that keeps reading (`ReplyChannel.dfy`, `ReplyLoss.dfy`), and the two together with
  the host's frame reader (`ReplyDelivery.dfy`, `ReplyProgress.dfy`).
- **The socket framer** (`Talk.dfy`, `TalkRuns.dfy`, `TalkPackets.dfy`): server and client loops over deques, against
  a reference parse of the whole stream, for any cutting of the stream into `recv` results.
- **Formatted output** (`Digits.dfy`, `Printf.dfy`, `PrintfStandard.dfy`): digit conversion from the right, the
  specifier scanner and the format loop against a character-by-character reference formatter; and, for formats of
  ordinary characters, `%%`, `%c` and integer conversions with a length modifier but without flags, width or precision,
  exactly when that formatter agrees with section 7.21.6.1 of ISO/IEC 9899:2011.
- **The attitude filter** (`Quaternion.dfy`, `Attitude.dfy`) over the reals: the attitude stays a unit quaternion over
  every run with moderate gains, exactly which gains can make a step vanish, `Jgfg` is the gradient of the objective, the
  objective compares with the rotated vertical, and exactly when the gradient cannot be normalised.
- **Starting and stopping the M3** (`Mmu.dfy`, `MemoryMap.dfy`, `Firmware.dfy`, `StartStop.dfy`): the translation table
  and the registers, write by write, what the M3 sees through them, and the firmware loader.
- **The motors** (`Motors.dfy`): the control tick, arming and disarming, and the pulse widths in 32-bit arithmetic.

## Assumptions

- Memory is sequentially consistent: the source uses `volatile` only. Each ring has one writer and one reader; a run
  starts after both sides have called `ringbuf_init` with the same size. This holds for the two control rings. It does
  not hold for the trace ring, whose ends use different sizes (panda/kmod/firmware.c:87, panda/m3/debug.c:358).
- System calls that start, stop or load the M3 are serialised: the driver takes no lock. The M3 is in reset when the
  module is loaded.
- A failed `DASSERT` stops the processor (`Halted`, `AssertFailed`): the source then blinks a light for ever.
- `int` and `long` have 32 bits, as on both processors. Whether plain `char` is signed is a parameter.
- Negating the smallest `intmax_t`, undefined in C, wraps around.
- A running M3 changes its own image by storing into it, as its data section lies there (panda/m3/link.ld). Its stores to
  other memory, and to the registers it can reach, are not modelled.
- An MMU that is off, in reset or not walking the table at 0x9E000000 lets the addresses of the M3 through as they are.
- A square root is any non-negative number that squares to its argument; it is passed in beside the sensor values.

## Where the code and its intention differ

Each of these is proved, with the exact condition under which the code does what is meant.

- `quadcopter_read` may return more bytes than it was asked for, with a firmware that writes meanwhile
  (`ReadOvershoot.OvershootIff`) and with an idle one (`Driver.ReadStaysWithinBuffer`).
- `command_send` drops whatever does not fit at the moment of each of its three ring writes. With an idle host that is
  the end of the frame (`CommandStream.ReplyIsWholeIffItFits`); with a host that reads meanwhile it can be the length
  byte (`ReplyLoss.AlwaysWholeIff`, `ReplyLoss.LengthCanBeLost`).
- `client.loop` looks for a packet only when data arrive, and returns one at most (`TalkRuns.ClientFollowsStream`).
- `packet_unpack` swaps the length and the sub-command in its result when there are data (`TalkPackets.UnpackUndoesPackIff`).
- `%zd`, `%tu` and its like print nothing and take no argument; `%hhd` goes through plain `char`
  (`PrintfStandard.PrintsWhatTheStandardSays`).
- `angle_update` divides by zero when the measured direction is the predicted one, or when a level craft measures a
  vertical direction of any length (`Attitude.GradientVanishesIff`).
- `angle_update` also divides by zero when the step vanishes, which a gain set by `update_gains` makes possible exactly if
  it moves the attitude by a whole unit per period or more (`Attitude.VanishesIff`).
- `packet_unpack` takes the end of a last value that its length byte cuts short from whatever follows the data
  (`TalkPackets.PacketUnpack`; on a packet that ends there it raises, `TalkPackets.BrokenValueIsRefused`).
- A firmware write from behind the end of the firmware is not clipped to it (`Firmware.ClippingWorksIff`).
- START on a running M3 first empties the table under it (`StartStop.SafeIffOrderly`).
- Before the first arm or disarm the motors are at full setting, and a raw command moves a motor that is not armed
  (`Motors.MotorsStaySafe`, `Motors.UnarmedMotorMovesIff`, `Motors.DisarmedMotorsAreOffIff`).

## Model

| member | source | states |
|---|---|---|
| `Basics.U32IsCongruent` | panda/common/ringbuf.c:26-37 | what a `uint32_t` holds differs from the exact value by a multiple of 2^32 |
| `Ring.FillPlusRoom` | panda/common/ringbuf.c:78-102 | used and free cells add up to one less than the size, in every position; the write position is `Fill` cells after the read position and no other distance is |
| `Ring.MovingWriteAppends` | panda/common/ringbuf.c:32-45 | once the cells from the write position on hold some bytes, moving the position past them appends exactly those bytes |
| `Ring.CopyAppends` | panda/common/ringbuf.c:41-45 | one copy without wrap appends its bytes to the unread ones |
| `Ring.WrappedCopyAppends` | panda/common/ringbuf.c:32-39 | the copy up to the end and the one from the start together append both parts in order |
| `Ring.ReadTakes` | panda/common/ringbuf.c:67-73 | moving the read position past `n` cells takes the oldest `n` bytes and nothing else |
| `Ring.CopiesAreOldest` | panda/common/ringbuf.c:60-71 | the one or two copies of a read deliver the oldest bytes in order |
| `Ring.RingBuffer.constructor` | panda/common/ringbuf.c:11-20 | an initialised ring is empty and 8 bytes smaller than its memory |
| `Ring.RingBuffer.AvailableRead` | panda/common/ringbuf.c:78-89 | the number of unread bytes |
| `Ring.RingBuffer.AvailableWrite` | panda/common/ringbuf.c:91-102 | the size less one less the unread bytes |
| `Ring.RingBuffer.Write` | panda/common/ringbuf.c:22-48 | appends the longest prefix of the buffer that fits, and returns its length |
| `Ring.RingBuffer.Read` | panda/common/ringbuf.c:50-76 | takes the oldest bytes, as many as asked for or as there are |
| `Ring.RingBuffer.Getc` | panda/common/ringbuf.c:104-109 | takes the oldest byte; on an empty ring the result is arbitrary and nothing changes |
| `Ring.RingBuffer.Putc` | panda/common/ringbuf.c:111-114 | appends a byte, or drops it when the ring is full |
| `SharedRingSafety.CopiesNeverMeet` | panda/common/ringbuf.c:32-71 | over every run, no cell of a write in progress is a cell of an unread byte; with both sides copying, no cell still to be stored is a cell still to be loaded |
| `SharedRingSafety.PublishKeepsInv` | panda/common/ringbuf.c:39-45 | publishing the write position appends exactly the bytes of the call |
| `SharedRingSafety.PublishReadKeepsInv` | panda/common/ringbuf.c:67-75 | what a read has copied by the time it publishes are the oldest unread bytes |
| `SharedRingSafety.FillAndFreeOnlyGrow` | panda/common/ringbuf.c:78-102 | a step of one side never shrinks what the other side has seen, so stale views stay safe |
| `SharedRingSafety.StepKeepsInv` | panda/common/ringbuf.c:22-102 | every step of either call keeps the invariant: computed room and fill are never more than the true ones, and produced bytes are the consumed ones followed by the ring |
| `SharedRingSafety.RunKeepsInv` | panda/common/ringbuf.c:22-102 | so does every run |
| `SharedRingSafety.FifoForAllInterleavings` | panda/common/ringbuf.c:22-102 | in every interleaving the bytes read are a prefix of the bytes written, and the others are in the ring in order |
| `Frames.ParseThenEncode` | panda/m3/command.c:65-90 | cutting a stream into frames loses nothing and leaves no whole frame |
| `Frames.EncodeThenParse` | panda/user/copter.py:36-44 | the frame encoding is uniquely decodable, whatever incomplete bytes follow |
| `Frames.ParseInParts` | panda/m3/command.c:65-76 | where a stream is cut does not change its frames |
| `Frames.DecodedPrefix` | panda/m3/command.c:65-90 | frames found in a prefix of an encoding are a prefix of the frames encoded |
| `ChannelSafety.NextKeeps` | panda/kmod/main.c:57-85 | every step of the whole channel keeps its invariant: host, driver loop, ring and firmware agree on every byte |
| `ChannelSafety.RunKeepsSystemInv` | panda/m3/command.c:55-92 | so does every run of the channel |
| `ChannelSafety.DispatchedIsPrefixOfSent` | panda/m3/command.c:55-92 | end to end, for all interleavings and fragmentations: the frames dispatched are a prefix of the frames sent, and equal to them when the channel is drained |
| `ChannelSafety.DrainedMeansDelivered` | panda/m3/command.c:78-91 | when the host has nothing left, the ring is empty and no tick is running, every frame sent has been dispatched and none is half assembled |
| `ChannelSafety.GetcNeverRunsEmpty` | panda/m3/command.c:57-74 | every byte the tick fetches is the next byte of the stream: the fill seen at the start of the tick stays a lower bound |
| `ChannelSafety.WriteReturnsWhatItPublished` | panda/kmod/main.c:57-85 | with a concurrent reader, a write publishes exactly the prefix whose length it returns, at least what was free on entry |
| `ChannelSafety.WriteRemembersEntry` | panda/kmod/main.c:57-85 | the free space and the position that this result refers to are those at the entry of the call |
| `ChannelSafety.WriteNeverBlocks` | panda/common/ringbuf.c:22-48 | the next step of a write is always possible |
| `ChannelSafety.ReadNeverBlocks` | panda/common/ringbuf.c:50-76 | the next step of a read is always possible |
| `ChannelSafety.NeverStuck` | panda/kmod/main.c:57-85 | in every reachable state both processors can move, unless the firmware has halted |
| `ChannelProgress.EveryTickTakes` | panda/m3/command.c:55-92 | in every run, a tick that begins on a ring that is not empty has taken at least one byte when it ends, whatever the host does meanwhile |
| `ChannelProgress.WholeTick` | panda/m3/command.c:55-92 | from between two ticks, with a ring that is not empty, there is a run of one tick with an idle host |
| `ChannelProgress.WholeCall` | panda/kmod/main.c:57-85 | from between two write calls, with a ring that is not full, there is a run of one call with an idle firmware, and it accepts at least one byte |
| `ChannelProgress.NeverHalts` | panda/m3/command.c:78-81 | with every command sent below 128 the assertion of the tick never fails |
| `ChannelProgress.DispatchedInRange` | panda/m3/command.c:78-91 | in every run only commands below 128 are dispatched |
| `ChannelProgress.EverythingCanBeDelivered` | panda/m3/command.c:55-92 | from every reachable state, in the middle of whatever calls, the channel can be run on until exactly the frames sent have been dispatched |
| `ChannelProgress.AnyCommandsGetThrough` | panda/m3/command.c:55-92 | for every list of commands below 128 some run from the start sends exactly them, dispatches exactly them and drains the channel |
| `Driver.QuadcopterWrite` | panda/kmod/main.c:57-85 | while nobody reads, the chunk loop is one write: it appends the longest prefix that fits and returns its length |
| `Driver.QuadcopterRead` | panda/kmod/main.c:36-55 | while nobody writes, delivers the next bytes of the stream in order and says how many: all there are, up to `count` rounded up to whole chunks |
| `Driver.ReadOvershootIsBounded` | panda/kmod/main.c:42-51 | while nobody writes, fewer than 512 bytes more than asked for |
| `Driver.ReadCanOvershoot` | panda/kmod/main.c:42-51 | a read of one byte can deliver two |
| `Driver.ReadStaysWithinBuffer` | panda/kmod/main.c:36-55 | while nobody writes, a read stays within its buffer if and only if the count is a multiple of 512 or the ring holds no more |
| `ReadChannel.NextKeepsInv` | panda/kmod/main.c:36-55 | every step of the read loop, of its ring read and of a firmware that writes meanwhile keeps the account of delivered bytes |
| `ReadChannel.ReadDeliversNextBytes` | panda/kmod/main.c:36-55 | in every run with a writing firmware a read that returns has delivered exactly the next bytes of the stream, at least those waiting on entry up to `count`, and fewer than `count + 512` |
| `ReadChannel.ReadRemembersEntry` | panda/kmod/main.c:36-55 | the count, the fill and the position that this result refers to are those at the entry of the call |
| `ReadOvershoot.NoOvershoot` | panda/kmod/main.c:42-51 | no run overshoots when one ring read can return at most one byte, or `count` is a whole number of largest ring reads that are all waiting on entry |
| `ReadOvershoot.OvershootIff` | panda/kmod/main.c:42-51 | called between two writes of the firmware, some run overshoots if and only if that guard fails |
| `ReadOvershoot.WholeChunkCanOvershoot` | panda/kmod/main.c:42-51 | a run that delivers 612 bytes to a caller that asked for 512 |
| `Command.CommandProcessor.constructor` | panda/m3/command.c:41-53 | between frames, disconnected, with the two handlers of the file registered, and each ring eight bytes smaller than its memory |
| `Command.CommandProcessor.CommandRegister` | panda/m3/command.c:94-101 | sets one entry of the command table and no other; for a command of 128 or more the assertion fails and nothing is set |
| `Command.CommandProcessor.CommandSend` | panda/m3/command.c:103-111 | while the host does not read, appends the frame, clipped to the room of the transmit ring |
| `Command.FittingInParts` | panda/m3/command.c:107-110 | two single bytes and the data, each clipped to the room, are the frame clipped to the room |
| `Command.ReplyInBytes` | panda/m3/command.c:21-39 | with room for two bytes, connecting is answered with the bytes 0 and `c`, disconnecting with 0 and `d`, an unknown command with 0 and `e` |
| `Command.CommandProcessor.Call` | panda/m3/command.c:21-39 | connect and disconnect set the flag and reply, a missing handler replies with an error, any other is called with the frame |
| `Command.CommandProcessor.StartFrame` | panda/m3/command.c:65-70 | between frames the length byte is fetched and fixes how many bytes are still to come |
| `Command.CommandProcessor.TakeBytes` | panda/m3/command.c:72-74 | the loop moves the next bytes of the stream into the buffer, as many as are available or still to come |
| `Command.CommandProcessor.Assemble` | panda/m3/command.c:65-76 | the assembly buffer grows by the oldest bytes, up to the end of the frame |
| `Command.CommandProcessor.EndTick` | panda/m3/command.c:76-91 | dispatches exactly when the frame is complete, to the handler registered for it |
| `Command.CommandProcessor.CommandProcess` | panda/m3/command.c:55-92 | one tick takes bytes up to the first frame boundary, dispatches at most one frame, sends the reply and changes the connection flag that belong to its command; with two free cells the reply is 0 `c`, 0 `d` or 0 `e` |
| `CommandStream.TickKeepsAccount` | panda/m3/command.c:55-92 | a tick loses, repeats and reorders no byte |
| `CommandStream.RunKeepsAccount` | panda/m3/command.c:55-92 | nor does any sequence of arrivals and ticks |
| `CommandStream.FragmentationDoesNotMatter` | panda/m3/command.c:55-92 | for every fragmentation the frames dispatched are the first frames of the parse of everything received, and all of them when the ring is empty |
| `CommandStream.TickIsDetermined` | panda/m3/command.c:65-91 | what a tick takes and dispatches follows from the bytes alone |
| `CommandStream.TickTakesNextFrame` | panda/m3/command.c:55-92 | a tick dispatches the next frame if all of it is there and otherwise empties the ring |
| `CommandStream.EachTickDispatchesOne` | panda/m3/command.c:55-92 | with nothing arriving, `n` ticks dispatch the next `n` whole frames in order, and one more tick than frames empties the ring |
| `CommandStream.ReplyIsWholeIffItFits` | panda/m3/command.c:103-111 | while the host does not read, what a reply appends is a whole frame if and only if the ring has room for length plus two bytes |
| `CommandStream.AnswerFirst` | panda/m3/command.c:41-92 | from `command_init` on: the first command is dispatched in one tick, `c` connects, and it is answered with 0 `c`, 0 `d` or 0 `e` |
| `ReplyChannel.NextKeepsInv` | panda/m3/command.c:103-111 | every step of the three ring writes of a reply, and of a host that reads meanwhile, keeps what was appended the beginning of the frame, if there was room for all of it |
| `ReplyChannel.RoomMeansWholeFrame` | panda/m3/command.c:103-111 | in every run with a reading host, room for length plus two bytes on entry means that exactly the frame is appended |
| `ReplyChannel.SendRemembersEntry` | panda/m3/command.c:103-111 | the frame, the free space and the position that this result refers to are those at the entry of the call |
| `ReplyLoss.AlwaysWholeIff` | panda/m3/command.c:103-111 | a reply is sure to be appended whole, whatever the host does meanwhile, if and only if the ring has that room on entry |
| `ReplyLoss.LengthCanBeLost` | panda/m3/command.c:107-110 | a run on a full ring in which the length byte is lost and the rest of the frame is sent |
| `ReplyDelivery.RunKeepsInv` | panda/m3/command.c:103-111 | every run of sender, ring and read loop together keeps the account of produced and received bytes |
| `ReplyDelivery.ReceivedIsPrefixOfReplies` | panda/m3/command.c:103-111 | end to end: if every reply found room, the frames in what the host has received are in every run a prefix of the replies sent, and all of them once everything has been delivered |
| `ReplyDelivery.ReceiveReplies` | panda/user/copter.py:46-73 | and so are the commands that the host's frame reader makes of it |
| `ReplyProgress.SendOne` | panda/m3/command.c:103-111 | on an empty ring some run of one `command_send` sends its whole frame |
| `ReplyProgress.ReadOne` | panda/kmod/main.c:36-55 | on a ring that is not empty some run of one `quadcopter_read` takes something |
| `ReplyProgress.AnyRepliesGetThrough` | panda/m3/command.c:103-111 | for every list of frames that each fit into the empty ring some run from the start sends exactly them, each with room, and the host receives exactly their encodings |
| `Copter.SendCommand` | panda/user/copter.py:36-44 | builds the frame, and fails exactly when the length or the command does not fit a byte |
| `Copter.RecvCommand` | panda/user/copter.py:46-73 | returns the first frame of the stream and leaves the rest, however the bytes trickle in; nothing exactly when the first read finds nothing; never returns exactly when the rest of the frame never comes |
| `Copter.ReceiveAll` | panda/user/copter.py:46-73 | receiving until `n` commands have come, from the encodings of `n` frames and whatever follows, gives exactly those frames in order and leaves what follows, whatever each read is granted |
| `Talk.Server.Accept` | controller/talk_module/talk_misc.py:106-112 | adds a connection with an empty deque, as the run of the server says |
| `Talk.Server.PopPacket` | controller/talk_module/talk_misc.py:126-129 | takes the first packet off one deque |
| `Talk.Server.ServeOne` | controller/talk_module/talk_misc.py:125-135 | pops packets and fires their callbacks, `info_call` or `api_call`, until no whole packet is left or one is unknown |
| `Talk.Server.Loop` | controller/talk_module/talk_misc.py:113-135 | one round over all connections, added to the run of the server; it raises if and only if some connection, with what is received on it, has a whole packet that begins with neither 0xA0 nor 0xB0 |
| `Talk.Client.Loop` | controller/talk_module/talk_misc.py:72-87 | a call that receives something returns the next packet of the stream if all of it has come, any other call nothing; the packets returned and those in the deque stay the packets of the stream |
| `Talk.PollKeepsStep` | controller/talk_module/talk_misc.py:72-87 | the call keeps that account: nothing is lost, repeated or reordered |
| `Talk.PacketsAndRest` | controller/talk_module/talk_misc.py:125-129 | the reference parse loses nothing and leaves no whole packet |
| `Talk.ParseInParts` | controller/talk_module/talk_misc.py:120-129 | where `recv` cuts the stream does not change its packets |
| `Talk.ServeRaisesIff` | controller/talk_module/talk_misc.py:125-135 | serving a deque raises if and only if one of its whole packets begins with neither 0xA0 nor 0xB0 |
| `Talk.RoundRaisesIff` | controller/talk_module/talk_misc.py:113-135 | so does a round, over all its connections |
| `TalkRuns.ServeFollowsParse` | controller/talk_module/talk_misc.py:125-135 | serving a deque pops its packets in order, up to the first unknown one, which is popped too |
| `TalkRuns.ServerFollowsStream` | controller/talk_module/talk_misc.py:106-135 | for every run of accepts and rounds, every chunking and every connection: the callbacks fired on it and the packets left in its deque are, in order, the packets of the stream read on it that begin with 0xA0 or 0xB0; all have been fired, and no whole packet is left, when its last round raised nothing there |
| `TalkRuns.KnownStreamIsServed` | controller/talk_module/talk_misc.py:106-135 | a stream of packets that all begin with 0xA0 or 0xB0 is served completely and in order, whatever happens on other connections |
| `TalkRuns.CallbackByFirstByte` | controller/talk_module/talk_misc.py:130-133 | over every run `info_call` gets only packets that begin with 0xA0, `api_call` only those that begin with 0xB0 |
| `TalkRuns.RoundForConnection` | controller/talk_module/talk_misc.py:114-135 | in one round the deque and the callbacks of a connection are those of serving what was read on it, which is nothing behind a connection that raised |
| `TalkRuns.ConnectionsAreIndependent` | controller/talk_module/talk_misc.py:106-135 | over every run each connection has the deque and the callbacks of being served alone |
| `TalkRuns.PolledCount` | controller/talk_module/talk_misc.py:72-87 | the client is a queue served once per arrival: the number of packets returned is the least over all earlier moments of the packets complete then plus the arrivals since |
| `TalkRuns.ClientFollowsStream` | controller/talk_module/talk_misc.py:72-87 | the client's results are a prefix of the packets of the stream, and all of them if and only if since no moment more packets have become complete than calls have received something |
| `TalkRuns.BurstStaysBehind` | controller/talk_module/talk_misc.py:72-87 | of two packets that arrive together only the first is returned |
| `TalkPackets.PacketPack` | controller/talk_module/talk_misc.py:25-38 | builds one whole packet, command, sub-command, length, data, and fails exactly when the data exceed 255 bytes |
| `TalkPackets.PacketUnpack` | controller/talk_module/talk_misc.py:40-55 | for every sequence of bytes, returns what `Unpack` says, in the order of the source, and fails exactly for an unknown type, no header, or too few bytes for a last value; the rows below say what that is for packed data |
| `TalkPackets.BrokenValueIsRefused` | controller/talk_module/talk_misc.py:51-54 | on a packet that ends with its data, unpacking fails if and only if the data are not a whole number of values |
| `Basics.WholeIsMultiple` | controller/talk_module/talk_misc.py:51 | a whole number of values is a multiple of their width |
| `TalkPackets.UnpackValues` | controller/talk_module/talk_misc.py:51-54 | cuts values of the width of the type off the packet until the length is covered, and fails exactly when the packet is too short for the last one |
| `TalkPackets.PiecesOfConcat` | controller/talk_module/talk_misc.py:33-34 | values of one width are recovered from their concatenation |
| `TalkPackets.UnpackOfPacked` | controller/talk_module/talk_misc.py:25-55 | what unpacking returns for what packing built: the values unchanged, an empty list as no data, and with data the length and the sub-command swapped |
| `TalkPackets.UnpackByWidth` | controller/talk_module/talk_misc.py:9-23 | the same with the widths in numbers: 1 for `c`, `b`, `B`, `?`; 2 for `h`, `H`; 4 for `i`, `I`, `l`, `L`, `f`; 8 for `q`, `Q`, `d` |
| `TalkPackets.OtherTypesAreRefused` | controller/talk_module/talk_misc.py:41-42 | no other type is accepted, whatever the packet |
| `TalkPackets.UnpackUndoesPackIff` | controller/talk_module/talk_misc.py:25-55 | unpacking gives back command, sub-command, length and data in this order if and only if there are no data, or there are values and the sub-command equals the length |
| `TalkPackets.FieldsInOrderIff` | controller/talk_module/talk_misc.py:49-55 | for every packet that can be unpacked the first field is the command and the next two are sub-command and length, in this order if and only if there are no data or the two are equal |
| `Digits.NumeralDenotes` | panda/m3/debug.c:30-81 | a numeral has no leading zero, only digits of its radix, and its positional value is the number |
| `Digits.NumeralIsUnique` | panda/m3/debug.c:30-81 | no other such string has that value |
| `Digits.SymbolIsPrinted` | panda/m3/debug.c:47-64 | the digits are those of "0123456789ABCDEF" for "%X" and of "0123456789abcdef" otherwise |
| `Digits.NumeralFits` | panda/m3/debug.c:12-81 | a 64-bit number needs at most 20, 16 or 22 of the 64 cells |
| `Digits.ConvertDec` | panda/m3/debug.c:30-44 | the cells behind the returned position hold the decimal numeral, and a cell for the sign is left |
| `Digits.ConvertHex` | panda/m3/debug.c:47-64 | the same in hexadecimal, in the case asked for |
| `Digits.ConvertOct` | panda/m3/debug.c:67-81 | the same in octal |
| `Printf.UnsignedIsCongruent` | panda/m3/debug.c:142-166 | the same for an unsigned argument |
| `Printf.SignedIsCongruent` | panda/m3/debug.c:91-115 | a signed argument is the number in the range of its type that differs from the argument word by a multiple of the size of the type |
| `Printf.Printer.OutputInt` | panda/m3/debug.c:84-134 | prints the number with its sign, for every value including the smallest, and returns its length |
| `Printf.Printer.OutputUint` | panda/m3/debug.c:136-180 | prints the numeral in the radix, and returns its length |
| `Printf.Printer.OutputChar` | panda/m3/debug.c:182-188 | prints one character |
| `Printf.Printer.ParseSpecifier` | panda/m3/debug.c:209-292 | the characters scanned, printed and counted are those of the reference formatter; -1 exactly when it rejects |
| `Printf.Printer.PrintSpecifier` | panda/m3/debug.c:305-316 | ordinary text and one specification, together, follow the reference formatter |
| `Printf.Printer.DoPrintf` | panda/m3/debug.c:294-321 | for every format and arguments the chunks printed are the reference text, and the result is its length, or -1 when a specification was rejected |
| `PrintfStandard.ReadBackDecimal` | panda/m3/debug.c:117-127 | the signed numeral printed determines the number |
| `PrintfStandard.SignedNumberComesBack` | panda/m3/debug.c:84-134 | round trip through a format: for "%d" and "%i" with each length modifier, reading what is printed for a number that fits the type gives the number |
| `PrintfStandard.UnsignedNumberComesBack` | panda/m3/debug.c:136-180 | the same for "%u", "%o", "%x" and "%X" in their radix |
| `PrintfStandard.CharComesBack` | panda/m3/debug.c:182-188 | "%c" prints the character whose code it is given |
| `PrintfStandard.OtherCharacters` | panda/m3/debug.c:262-286 | `f`, `s` and `p` are passed over, any other unknown character rejects the specification |
| `PrintfStandard.DirectiveIsRead` | panda/m3/debug.c:214-286 | each way of writing a length and a conversion is read as that directive |
| `PrintfStandard.SignedArgMeetsStandard` | panda/m3/debug.c:91-115 | the signed argument as narrowed is the one the standard prescribes if and only if it is not a negative "%hhd" with unsigned `char` |
| `PrintfStandard.UnsignedArgMeetsStandard` | panda/m3/debug.c:142-166 | the unsigned argument as narrowed is the one the standard prescribes, for every length modifier but `t` |
| `PrintfStandard.MeetsStandardIff` | panda/m3/debug.c:91-166 | a directive prints and consumes what section 7.21.6.1 says if and only if it is not "%zd"-like, "%tu"-like or a negative "%hhd" with unsigned `char` |
| `PrintfStandard.PrintsWhatTheStandardSays` | panda/m3/debug.c:209-321 | a whole format prints and consumes what the standard says if and only if none of its directives deviates |
| `Quaternion.LengthsMultiply` | panda/m3/vector.c:78-88 | the length of a product is the product of the lengths |
| `Attitude.Filter.constructor` | panda/m3/angle.c:29-66 | the attitude starts level, with unit length |
| `Attitude.Filter.UpdateGains` | panda/m3/angle.c:17-27 | new gains start the attitude over at (1, 0, 0, 0) and keep the period, as the runs below have it |
| `Attitude.Filter.AngleUpdate` | panda/m3/angle.c:68-157 | where both roots can be divided by, the attitude becomes the unit quaternion along the unnormalised step; for a unit attitude and `dt * gain` below 1 in magnitude the second root is at least 1 less that magnitude; this is the step that the runs below are made of |
| `Attitude.NormalizedIsUnit` | panda/m3/vector.c:126-134 | normalising gives a unit quaternion of the same direction |
| `Attitude.UnitUnderRoot` | panda/m3/vector.c:126-134 | and no other one |
| `Attitude.TurningStretches` | panda/m3/angle.c:149-156 | integrating the gyroscope alone multiplies the squared length by exactly `1 + (dt/2)^2 * rate^2` |
| `Attitude.StepIsTurnMinusCorrection` | panda/m3/angle.c:149-156 | the step is that turn minus a correction of length `dt * gain` along the gradient |
| `Attitude.StepCannotVanish` | panda/m3/angle.c:129-157 | for `dt * gain` below 1 in magnitude the step is never shorter than 1 less that magnitude, so the second normalisation does not divide by zero |
| `Attitude.HandlingKeepsHealth` | panda/m3/angle.c:68-157 | one sample, or new gains with `dt * gain` below 1 in magnitude, keep unit length |
| `Attitude.AttitudeStaysUnit` | panda/m3/angle.c:17-157 | over every run of samples and new gains with `dt * gain` below 1 in magnitude the attitude is a unit quaternion and no second root is zero |
| `Attitude.CancellingVanishes` | panda/m3/angle.c:129-157 | for every gain with `dt * gain` of at least 1 in magnitude, a sample at the attitude (3/5, 4/5, 0, 0) with a gradient that is not zero and a step that is |
| `Attitude.VanishesIff` | panda/m3/angle.c:17-157 | for a given gain and period, some run of samples from the start makes the second root zero if and only if `dt * gain` is at least 1 in magnitude |
| `Attitude.GradientOfObjective` | panda/m3/angle.c:99-108 | moving by `eps * d` changes the squared objective by exactly `2 eps <Jgfg, d>` plus `eps^2` times an explicit polynomial |
| `Attitude.ObjectiveIsRotatedVertical` | panda/m3/angle.c:99-102 | the objective is the vertical axis seen from the attitude, minus the measured direction |
| `Attitude.GradientVanishesIff` | panda/m3/angle.c:99-129 | the gradient cannot be normalised if and only if the measurement is the prediction, or the attitude is level and the measurement vertical |
| `Mmu.MegabyteOfSum` | panda/kmod/mmu.c:99-103 | adding a shifted counter in 32 bits moves on by that many megabytes, around the end of the address space |
| `Mmu.TranslateInNumbers` | panda/kmod/mmu.c:83-91 | an entry is a section if and only if its low 20 bits are 0xC02, and then an address keeps its low 20 bits and gets the upper bits of the entry |
| `Mmu.Mmu.constructor` | panda/kmod/mmu.c:39-70 | at load time the table is zero and the registers are as found |
| `Mmu.Mmu.Init` | panda/kmod/mmu.c:62-67 | zeroes the table and nothing else |
| `Mmu.Mmu.Map` | panda/kmod/mmu.c:83-91 | sets the entry of one virtual megabyte to the section of one physical megabyte |
| `Mmu.Mmu.MapRange` | panda/kmod/mmu.c:93-104 | afterwards each entry in the range holds the section at the same distance, and every other entry is as before |
| `Mmu.Mmu.Enable` | panda/kmod/mmu.c:106-121 | clocks on, MMU out of reset, table at 0x9E000000, control register 6, so the MMU walks the table; the processor's reset bit is kept |
| `Mmu.Mmu.EnableM3` | panda/kmod/mmu.c:123-127 | releases the processor, all other bits kept |
| `Mmu.Mmu.DisableM3` | panda/kmod/mmu.c:129-133 | holds the processor, all other bits kept |
| `MemoryMap.MappedTranslates` | panda/kmod/mmu.c:83-104 | after mapping a range its addresses go to the same offset behind the physical start, and all others where they went before |
| `MemoryMap.LastRegionDecides` | panda/kmod/main.c:105-125 | with several ranges the last one that contains an address decides |
| `MemoryMap.RegionsAreApart` | panda/common/memory.h:28-58 | the eight regions overlap neither virtually nor physically |
| `MemoryMap.RegionIsMapped` | panda/common/memory.h:28-62 | with the table of START every byte of the eight regions translates to its physical counterpart |
| `MemoryMap.NothingElseIsMapped` | panda/kmod/main.c:100-122 | every other address is unmapped |
| `MemoryMap.MapInNumbers` | panda/common/memory.h:12-62 | the whole translation after START, for every address, in numbers |
| `MemoryMap.FirmwareIsProgram` | panda/common/memory.h:14-30 | the firmware device is the two megabytes behind the program region |
| `MemoryMap.MappingIsInjective` | panda/common/memory.h:28-62 | no two addresses of the M3 reach the same byte |
| `MemoryMap.TableIsOutOfReach` | panda/common/memory.h:21-22 | the M3 cannot reach the translation table |
| `MemoryMap.GuardIsUnmapped` | panda/common/memory.h:28-34 | the megabyte between program and stack is unmapped |
| `Firmware.Loader.Write` | panda/kmod/firmware.c:35-51 | while loading is allowed the bytes that fit are copied to the position, which moves on by that many; otherwise nothing changes and the result is -EPERM |
| `Firmware.ClippingWorksIff` | panda/kmod/firmware.c:38-39 | in the source's widths, the clipped write stays inside the firmware if and only if it begins inside |
| `Firmware.Loader.Enable` | panda/kmod/firmware.c:101-104 | allows loading |
| `Firmware.Loader.Disable` | panda/kmod/firmware.c:106-109 | forbids loading |
| `Firmware.LoadingIgnoresPieces` | panda/kmod/firmware.c:35-51 | however a program is cut into writes, the image and the final position are those of one write |
| `StartStop.StartFromStopped` | panda/kmod/main.c:96-131 | START from the stopped state is safe at every write and ends with clocks and MMU on, both parts out of reset, the M3 seeing the whole map, loading forbidden and the image as it was |
| `StartStop.RegionIsSeen` | panda/kmod/main.c:96-131 | after START the M3 finds behind every address of the eight regions what memory.h puts there, and nothing behind others |
| `StartStop.SeeingNeedsTheMmu` | panda/kmod/mmu.c:106-121 | an M3 that sees the map has its MMU out of reset, switched on and walking the table at 0x9E000000 |
| `StartStop.StopSteps` | panda/kmod/main.c:91-95 | STOP is safe at every write and leaves the M3 held, loading allowed and everything else as it was |
| `StartStop.StartWhileRunningIsUnsafe` | panda/kmod/main.c:96-100 | START on a running M3 passes through an unsafe moment |
| `StartStop.CallKeepsSafety` | panda/kmod/main.c:87-135 | a system call is safe at every moment if and only if it is not START on a running M3; between calls loading is allowed exactly while the M3 is stopped |
| `StartStop.SafeIffOrderly` | panda/kmod/main.c:87-135 | over every sequence of calls, an M3 out of reset sees the whole map and has a locked image at every single moment if and only if START is never called while it runs |
| `StartStop.LockedImageIsFrozen` | panda/kmod/firmware.c:35-51 | until the next STOP every write is refused, and without stores of the M3 the image does not change |
| `StartStop.StoreLands` | panda/common/memory.h:28-30 | a store of a safe M3 inside its program changes that byte of the image and no other |
| `StartStop.UnstoredByteStays` | panda/common/memory.h:28-30 | in a safe run the bytes at which the running M3 stores nothing stay as they were loaded |
| `StartStop.LoadedProgramRuns` | panda/kmod/main.c:87-135 | after open, writes of up to two megabytes in any pieces and START, the M3 finds at its address `k` the memory at 0x9E100000 + `k`, which holds byte `k` of the program, whatever happens except STOP, a second START and its own stores at `k` |
| `StartStop.AlwaysSafeMeansEveryMoment` | panda/kmod/main.c:87-135 | safety along the writes is safety of every state the M3 can observe |
| `StartStop.Quadcopter.constructor` | panda/kmod/main.c:154-204 | after loading the module with the M3 in reset the board is safe, stopped and ready to load |
| `StartStop.Quadcopter.Ioctl` | panda/kmod/main.c:87-135 | the driver makes the writes of START and STOP in that order, leaving the state and the sequence of moments that the run results are about |
| `StartStop.Quadcopter.StartM3` | panda/kmod/main.c:100-130 | the same for START alone |
| `StartStop.Quadcopter.StopM3` | panda/kmod/main.c:91-95 | the same for STOP alone |
| `StartStop.Quadcopter.MapRegions` | panda/kmod/main.c:102-122 | the eight regions, in order |
| `StartStop.Quadcopter.OpenFirmware` | panda/kmod/firmware.c:19-26 | a file starts at position 0; the moment is logged |
| `StartStop.Quadcopter.WriteFirmware` | panda/kmod/firmware.c:35-51 | a write through an open file, with its result; the moment is logged |
| `Motors.PulseIsExact` | panda/m3/pwm.c:171-179 | for every 16-bit setting no step wraps, the pulse is between one and two milliseconds with both ends exact, and it ends before the timer starts over |
| `Motors.LargerSettingLongerPulse` | panda/m3/pwm.c:171-179 | the pulse grows with the setting |
| `Motors.S32IsCongruent` | panda/m3/control.c:168-171 | a sum of the mix is the number of the range of `int` that differs from it by a multiple of 2^32 |
| `Motors.SafeSetting` | panda/m3/control.c:33-47 | the greatest safe setting not above the one asked for, or off |
| `Motors.Uint16Joins` | panda/m3/control.c:49-61 | a 16-bit number split into its low and its high byte is put together again by the command that carries it |
| `Motors.Control.constructor` | panda/m3/pwm.c:87-97 | disarmed, all motors at full setting |
| `Motors.Control.PwmSet` | panda/m3/pwm.c:171-179 | sets one match register and no other |
| `Motors.Control.SetMotorSafe` | panda/m3/control.c:33-47 | sets one motor to the safe setting and reports whether the maximum was exceeded |
| `Motors.Control.SetMotors` | panda/m3/control.c:173-178 | sets the four motors to their safe settings and reports whether one was above 40000 |
| `Motors.Control.Drive` | panda/m3/control.c:168-178 | mixes throttle and outputs, sets the motors if armed and reports an excess of an armed motor |
| `Motors.Control.ControlUpdate` | panda/m3/control.c:137-203 | one tick: the motors are driven if armed, then the command is handled; it warns exactly when a driven motor would have exceeded the maximum (in numbers in the next two rows) |
| `Motors.ArmedTickInNumbers` | panda/m3/control.c:33-178 | a tick without command: motor 1 of an armed craft is at `throttle + rollOut`, 2 at `throttle - pitchOut`, 3 at `throttle - rollOut`, 4 at `throttle + pitchOut`, each off below 5000 and at 40000 above 40000, and the tick warns exactly if one is above; an unarmed craft does not change |
| `Motors.CommandInNumbers` | panda/m3/control.c:49-113 | what a command adds to its tick: `a` arms, `s` disarms and switches all off, `o` with 14 bytes sets the throttle from the last two, `m` with 3 bytes sets one motor; every other frame adds nothing |
| `Motors.Control.Dispatch` | panda/m3/control.c:49-113 | what arm, disarm, control and raw commands change, and that all others change nothing |
| `Motors.TickIsSafeIff` | panda/m3/control.c:137-203 | a tick that drives the motors leaves them safe if and only if it brings no unsafe raw command |
| `Motors.ArmedIsLastCommand` | panda/m3/control.c:90-113 | the motors are armed if and only if the last arm or disarm command was an arm |
| `Motors.MotorsStaySafe` | panda/m3/control.c:33-203 | over every run without unsafe raw commands each motor, once driven, is off or between the bounds; before that all are where `init_timer` left them, if no raw command has moved one |
| `Motors.DisarmedMotorsAreRaw` | panda/m3/control.c:100-113 | after a disarm, up to and including the tick of the next arm, every motor has the last raw setting it was sent since, and is off if there is none |
| `Motors.DisarmedMotorsAreOffIff` | panda/m3/control.c:100-113 | so they are all off if and only if the last raw setting of each since the disarm, if any, is 0 |
| `Motors.CorrectionsKeepThrust` | panda/m3/control.c:168-178 | while nothing is cut off, corrections redistribute the thrust of each axis without changing its sum |
| `Motors.UnarmedMotorMovesIff` | panda/m3/main.c:35-67 | a tick moves a motor that is not armed if and only if a disarm switches it off or a raw command gives it another setting |
| `Motors.OffStaysOffIff` | panda/m3/main.c:35-67 | unarmed motors that are off stay off if and only if no raw command sets one to something else |
| `Motors.RawCommandNeedsNoArming` | panda/m3/main.c:35-67 | a run in which a raw command sets a disarmed motor to its maximum |

## Left out

- Memory reordering between the processors, several writers or readers of one ring, and the trace ring.
- Failures of `copy_to_user` and `copy_from_user`, and of the driver's initialisation and exit.
- `Firmware.Loader.Write`: positions beyond the end of the firmware, which only a seek or a positioned write can give; `Firmware.ClippingWorksIff` says what is copied there.
- Several processes calling the driver at once.
- `Ring.RingBuffer.constructor`: the size is at least one byte and fits a signed `int`, as for the two control rings.
- `Mmu.Mmu.MapRange`: at most 2048 megabytes, because the source shifts a signed counter; its masks and shifts are written as quotients and remainders.
- `Command.CommandProcessor.Call`: the handlers of other files are recorded as called, with their frame; what they change or send is not part of this class (`Motors` models those that concern the motors).
- `Copter.RecvCommand`: Python's own read buffer is not modelled; the stream is all that the device will ever send.
- `Printf.Printer.DoPrintf`: reading more arguments than were passed, which C leaves undefined, gives arbitrary values; `%f`, `%s` and `%p` print nothing and the scan goes on, as in the source; "%lx" and its like assume a 32-bit `long`.
- `Attitude.AttitudeStaysUnit`: over the reals and not floats.
- `TalkPackets.UnpackOfPacked`: values are opaque bytes of a fixed width, and `l` and `L` have the width of the table although `struct` may use another.
- The exceptions of `server.loop` end the round; what the caller does next is not modelled.
- MARG and DRIFT_CORRECTION blocks of the filter: not enabled in the Makefiles.
- `vector3_cross` (unused), the other vector operations, sensors, PID controllers, Euler angles, `processCommand`, and the handlers `tune_cmd` and `update_gains` beyond restarting the filter: straight-line code, or arithmetic on floats.
- `int` overflow in the motor mix, undefined in C, wraps around here.
- The telemetry frames of `control_update`, sent every 25th tick while connected; `ReplyDelivery` is about any frames.
- Clocks, interrupts, I2C, UART, GPIO and the boot of the M3; the copies of the same algorithms under maple/ and panda/a9/.
