# muduo-style reactor core: Buffer and EPollPoller in Dafny

This project models two sequential pieces of a reactor networking library (myMuduo) and
proves properties of them.

- **Buffer** (`buffer.dfy`, module `NetBuffer`) is the growable byte buffer that socket reads
  and writes go through. It is one vector split into a prependable zone `[0, reader)`, a readable
  zone `[reader, writer)` and a writable zone `[writer, size)`, with an 8-byte cheap-prepend
  region that is always kept. The class `Buffer` holds the vector as an `array<char>` and
  updates it in place. `append` copies in at the write cursor. `makeSpace` either grows the vector
  to exactly `writer + len` bytes (a fresh array in the model) or slides the content down to offset 8. The datatype
  `BufferState` is the value of a buffer. Its functions specify every operation, and each
  method's postcondition ties the new state to them. The partner of the whole API is a plain
  FIFO byte queue (`QueueAfter`). `ReplayMatchesQueue` proves that growth and compaction
  never lose, duplicate or reorder a readable byte, over any sequence of appends and retrieves.
- **EPollPoller** (`poller.dfy`, module `Poller`) is the registration state machine of the
  epoll multiplexer. Each channel carries an index tag: `New = -1`, `Added = 1` or `Deleted = 2`.
  `updateChannel` and `removeChannel` move the tag, keep the `channels_` map (fd → channel) in
  step and issue `epoll_ctl` ADD/MOD/DEL. The kernel is modelled by its interest list
  (fd → event mask), which the `Ctl` function edits the way `epoll_ctl` does. The class also
  keeps a ghost log of every call issued. The datatype `Registry` (the index of every mapped
  fd, plus the interest list) specifies both operations. Its invariant holds after every
  operation: an fd is mapped iff its tag is Added or Deleted, and it is in the interest list
  iff its tag is Added. `poll` takes `epoll_wait`'s result as a parameter. It copies a
  non-empty batch into the active-channel list through `fillActiveChannels`, and doubles the
  event array when the batch filled it.

Three behaviours of the code are worth stating plainly:

- `updateChannel` issues ADD for every New or Deleted channel, whatever its mask, so a channel
  with an empty interest set still enters the kernel's interest list
  (`code/EPollPoller.cc:77-87`, `NewChannelAddedWithoutEvents`).
- Retrieving all of the content `c` and appending it again gives back `c`
  (`DrainThenRefillRestores`). Retrieving only `n < |c|` bytes and appending those again gives
  the rotated content `c[n..] + c[..n]` (`PartialRefillRotates`), which equals `c` only in
  special cases such as `n = 0`.
- `poll` does not retry an interrupted `epoll_wait`: EINTR and every other error alike change
  no poller state and return the clock reading. Only a non-EINTR error is logged and restores
  `errno` (`code/EPollPoller.cc:56-63`). The model's `Failed` outcome
  does the same.

## Model

| member | source | states |
|---|---|---|
| `NetBuffer.Buffer.constructor` | code/Buffer.h:21-27 | A new buffer holds exactly 1032 zero bytes and both cursors at 8, so its content is empty, 1024 bytes are writable and 8 are prependable |
| `NetBuffer.Buffer.ReadableBytes` | code/Buffer.h:29-32 | The readable byte count is the length of the content |
| `NetBuffer.Buffer.WritableBytes` | code/Buffer.h:34-37 | The writable byte count is the room between the write cursor and the end of the vector |
| `NetBuffer.Buffer.PrependableBytes` | code/Buffer.h:39-42 | The prependable byte count is the read cursor, and it is never below the 8-byte cheap-prepend region |
| `NetBuffer.Buffer.Peek` | code/Buffer.h:44-47 | The returned offset is where the content starts: the bytes from it up to the write cursor are exactly the content |
| `NetBuffer.Buffer.BeginWrite` | code/Buffer.h:99-107 | The returned offset is just past the content, and the writable zone runs from it to the end of the vector |
| `NetBuffer.BufferState.Retrieve` | code/Buffer.h:50-60 | For len below the readable count, only the read cursor moves, by len, and the content loses exactly its first len bytes. Otherwise the result is retrieveAll. Storage never changes and the index invariant is kept |
| `NetBuffer.BufferState.RetrieveAll` | code/Buffer.h:62-65 | Both cursors return to the prepend boundary, the content is empty, and everything past 8 becomes writable, with storage unchanged |
| `NetBuffer.BufferState.MakeSpace` | code/Buffer.h:126-141 | The content is byte-identical afterwards and at least len bytes are writable. When writable plus prependable is below len + 8, the vector grows to exactly writer + len with its old bytes kept as a prefix and the cursors untouched. Otherwise the size is unchanged, the reader is 8 and the writer is 8 + readable |
| `NetBuffer.BufferState.EnsureWritable` | code/Buffer.h:83-89 | Afterwards at least len bytes are writable and the content is unchanged. When there was already room, nothing changes |
| `NetBuffer.BufferState.Append` | code/Buffer.h:92-97 | The new content is the old content followed by the data, whether the vector grew, was compacted or neither. With enough room the storage size and read cursor stay put |
| `NetBuffer.Buffer.Retrieve` | code/Buffer.h:50-60 | The buffer's new state is BufferState.Retrieve of its old state, in place, with the same vector |
| `NetBuffer.Buffer.RetrieveAll` | code/Buffer.h:62-65 | The buffer's new state is BufferState.RetrieveAll of its old state, both cursors at 8 |
| `NetBuffer.Buffer.RetrieveAsString` | code/Buffer.h:74-80 | For len up to the readable count, it returns exactly the first len readable bytes and then retrieves them |
| `NetBuffer.Buffer.RetrieveAllAsString` | code/Buffer.h:68-71 | It returns the whole content and leaves the buffer empty with both cursors at 8 |
| `NetBuffer.Buffer.EnsureWriteableBytes` | code/Buffer.h:83-89 | Afterwards at least len bytes are writable and the content is byte-identical, as BufferState.EnsureWritable states. When writable plus prependable is below len + 8 the vector grows to exactly writer + len bytes (a fresh array in the model). Otherwise it stays the same vector, with no reallocation |
| `NetBuffer.Buffer.Append` | code/Buffer.h:92-97 | The content afterwards is the old content followed by data[..len], as BufferState.Append states, even across growth or compaction. When writable plus prependable is below len + 8 the vector grows to exactly writer + len bytes (a fresh array in the model). Otherwise it stays the same vector, with no reallocation |
| `NetBuffer.Buffer.CopyIn` | code/Buffer.h:95 | The std::copy of append overwrites exactly len bytes at the write offset and leaves every other byte of the vector alone |
| `NetBuffer.Buffer.MakeSpace` | code/Buffer.h:126-141 | The buffer's new state is BufferState.MakeSpace of its old state. When writable plus prependable is below len + 8 the vector grows to exactly writer + len bytes holding the old bytes (a fresh array in the model). Otherwise it compacts within the same vector, with no reallocation |
| `NetBuffer.Buffer.SlideDown` | code/Buffer.h:134-137 | The overlapping std::copy of makeSpace moves the readable bytes to offset 8 and keeps the prepend region and every byte past the copied range |
| `NetBuffer.Replay` | code/Buffer.h:49-97 | After any sequence of appends and retrieves, 8 <= reader <= writer <= size still holds |
| `NetBuffer.ReplayMatchesQueue` | code/Buffer.h:49-97 | Over any sequence of appends and retrieves, the readable content equals that of a plain FIFO byte queue. Growth and compaction never lose or reorder bytes |
| `NetBuffer.DrainThenRefillRestores` | code/Buffer.h:62-97 | Retrieving everything and appending it again gives back the same content |
| `NetBuffer.PartialRefillRotates` | code/Buffer.h:50-97 | Retrieving only the first n bytes of a content c (n below its length) and appending them again leaves the content c[n..] + c[..n] |
| `NetBuffer.HelloScenario` | code/Buffer.h:24-97 | On a new buffer, append("hello", 5) makes the content "hello", retrieve(2) makes it "llo", and retrieveAllAsString returns "llo" and leaves 0 readable bytes |
| `Poller.Registry.Update` | code/EPollPoller.cc:73-101 | updateChannel keeps the registration invariant, and the ADD/MOD/DEL it issues never fails. The fd ends up mapped. The tag becomes Deleted for an Added channel with an empty mask and Added in every other case. When Added, the kernel mask for fd equals the channel's events. No other fd's tag or interest entry changes |
| `Poller.Registry.Remove` | code/EPollPoller.cc:104-117 | removeChannel keeps the invariant, and its DEL (issued only when Added) succeeds. Afterwards fd is unmapped, its tag reads New, it is absent from the interest list, and nothing else changes |
| `Poller.NoCtlFailure` | code/EPollPoller.cc:73-155 | From a valid registry, every epoll_ctl call issued by any sequence of updateChannel and removeChannel requests succeeds. The fatal ADD/MOD branch and the logged DEL failure are unreachable |
| `Poller.DeleteThenReAdd` | code/EPollPoller.cc:77-100 | An Added channel whose mask empties is unregistered with DEL and tagged Deleted while staying mapped. When interest reappears it is registered again with ADD, the mapped fds are exactly the original ones, and the kernel mask is the new one |
| `Poller.NewChannelAddedWithoutEvents` | code/EPollPoller.cc:77-87 | A New channel with an empty mask is still registered with ADD, tagged Added, and enters the interest list with the empty mask |
| `Poller.DropAndRestoreInterest` | code/EPollPoller.cc:77-100 | Emptying an Added channel's mask and calling updateChannel, then restoring a non-empty mask and calling it again, issues exactly DEL then ADD. The channel ends Added, channels_ and the event array are unchanged, and the kernel mask for fd is the new one while every other fd keeps its entry |
| `Poller.ReRegisterScenario` | code/EPollPoller.cc:73-101 | A new channel on fd 5 registered for reading, then dropped and restored with mask 3 (EPOLLIN with EPOLLPRI), ends Added and still mapped, and the kernel holds mask 3 for fd 5 |
| `Poller.EPollPoller.constructor` | code/EPollPoller.cc:16-25 | A new poller has no channels, an empty interest list, no epoll_ctl calls and an event array of zeroed slots |
| `Poller.EPollPoller.Update` | code/EPollPoller.cc:133-155 | One epoll_ctl call with the channel's current mask is logged, and the interest list changes as epoll_ctl changes it. A DEL of an unregistered fd fails, changes nothing and is not fatal. ADD and MOD are issued only where they succeed |
| `Poller.EPollPoller.UpdateChannel` | code/EPollPoller.cc:73-101 | The state moves as Registry.Update says and the call logged is that update's call. A New channel is inserted into channels_, a Deleted or Added one leaves the map alone. The tag moves New/Deleted to Added, and Added to Deleted when the mask is empty |
| `Poller.EPollPoller.RemoveChannel` | code/EPollPoller.cc:104-117 | fd is always erased from channels_ and the tag always becomes New. A DEL is logged only when the tag was Added, and the state moves as Registry.Remove says |
| `Poller.EPollPoller.FillActiveChannels` | code/EPollPoller.cc:120-130 | Exactly the channels of the first n slots are appended, in slot order, after the earlier list elements. Each one's revents is set to its slot's mask |
| `Poller.EPollPoller.Poll` | code/EPollPoller.cc:33-65 | A non-empty batch lands at the front of the event array, is appended in order to the active list and sets each channel's revents. A batch that filled the array doubles it with zeroed slots. An empty batch or an error leaves the event array and the active list untouched. Registrations are unchanged and the clock reading is returned |

## Left out

- `readFd` and `writeFd` (code/Buffer.h:110-112) are declared only, and their bodies are raw read/write system calls. They are not part of this model.
- Integer widths: cursors and lengths are unbounded naturals, so a `size_t` overflow of `writerIndex + len` is not modelled.
- `NetBuffer.Buffer.RetrieveAsString`: requires `len <= readableBytes()`. Beyond that the source copies stale or out-of-range bytes, which is not modelled.
- Channel.h and Channel.cc are not part of this model. A channel is reduced to the fields the poller reads and writes (`fd`, `events`, `revents`, `index`), and `kNoneEvent` is taken to be the empty mask 0.
- EPollPoller.h is not part of this model. Its event-array size `kInitEventListSize` is a constructor parameter, and `epoll_create1` and `close` are assumed to succeed.
- `Poller.EPollPoller.Update`: an ADD or MOD that the kernel would refuse ends the process through `LOG_FATAL` in the source. Here it is a precondition instead, and `NoCtlFailure` shows that updateChannel and removeChannel never issue one. Other kernel failures (EBADF, ENOMEM) are not modelled.
- `Poller.EPollPoller.Poll`: the clock (`Timestamp::now()`) is the parameter `now`, and `epoll_wait`'s outcome is the parameter `result`. The kernel's guarantees on a batch are preconditions: it fits the array, every slot carries a channel, and no channel appears twice. The timeout, blocking, `errno` and logging are not modelled.
- The `epoll_event` data union is modelled as a slot holding the channel reference directly.
- Thread.cc, CurrentThread.h, InetAddress.cc and Acceptor.h are not part of this model. They deal with concurrency, thread-local caching, foreign address-formatting calls and declarations without bodies.
- `Poller.EPollPoller.UpdateChannel` and `Poller.EPollPoller.RemoveChannel`: both require `Tracks(ch)`. The channel is either New with its fd unmapped, or it is the very channel `channels_` maps its fd to. The source does not check this. A New channel whose fd is still mapped to another, Deleted channel would overwrite that entry in `channels_`. A removeChannel on a channel whose fd maps to a different channel would erase that other channel's entry (`code/EPollPoller.cc:107`), and would also issue a DEL for the fd if the removed channel is tagged Added (`code/EPollPoller.cc:112-115`). The model covers neither case.
- `Poller.NoCtlFailure`: the kernel's interest list changes only through `epoll_ctl` here. A `close()` of a registered fd removes it from the kernel's list without the poller knowing. That makes the later tolerated DEL failure of `code/EPollPoller.cc:146-149` reachable, and the model does not cover it.
- `NetBuffer.Buffer.MakeSpace` (and so `NetBuffer.Buffer.EnsureWriteableBytes` and `NetBuffer.Buffer.Append`): the vector's capacity is not modelled, and the storage length is always its size. So every growth allocates a fresh array in the model. The source's `resize` reallocates only when `writerIndex_ + len` exceeds the capacity, so pointers from `peek()` or `beginWrite()` can survive a growth there. The model promises the same array only for compaction and for the case where there was already room.
- `NetBuffer.Buffer.Append`: `data` is passed as a value. A caller that passes a pointer into the buffer's own storage is not modelled. In the source, growth may leave such a pointer dangling and compaction shifts the bytes under it.
- Single-thread ownership of the poller is assumed, and no concurrency is modelled.
