# SPICE server: a verified model of its caching, compression and flow-control core

SPICE shows the screen of a virtual machine on a remote client. The server keeps much
state on both sides of a wire in step: draws it has not executed yet, a dictionary
shared by several image encoders, caches whose contents the client mirrors, tokens and
acknowledgements that bound what is under way. This project models that state in Dafny
and proves what the rest of the server relies on.

`dafny verify dfyconfig.toml` checks the whole project.

## What is proved

**Lazy rendering** (`Raster`, `Culling`, `Display`). Draws are queued and hidden parts
of older ones are taken away; a surface is rendered only when something reads it,
together with the surfaces its draws read. The picture that executing every command on
arrival would give is `eager`. Whatever commands arrive, the canvas followed by what is
pending amounts to `eager` (`ProcessDraw`), and after an update the area holds exactly
its pixels (`Update`). The proof rests on liveness of pixels: a draw nobody will look at
may be dropped, and a draw may be moved before older draws that it is independent of.
The dependency order makes the mutual recursion of the drawing functions terminate.

**GLZ compression** (`GlzMatch`, `GlzFormat`, `GlzWindow`, `GlzEncoder`, `GlzCompress`,
`GlzDictionary`, `GlzListOps`, `GlzSharedDictionary`, `GlzRuns`, `GlzEncode`). A decoder
written from the format gives back every image that the encoders produce, up to the
bits that the pixel type tells apart: for every pixel type, every division into chunks
of lines, any stale or foreign hash-table entry, and any interleaving of the steps of
other encoders on the same dictionary (`EncodeDuring`, `InterleavedShowsAll`, and
`EncodeAll` for calls one after the other). A client that drops all pictures before the
head that each image announces shows the same, as long as the windows are within their
limit, which they are where all pixels are counted and no sum wraps around
(`PlayIsReplay`, `HeadsGoOn`, `InterleavedPlays`, `CountedIsRoomy`). The lists of the
dictionary partition its segments, its pixel counter increases along the used list, and
nothing that is in use moves while some encoder is at work.

**Caches** (`PixmapStore`, `PixmapCache`, `LruCache`, `CursorChannel`). The pixmap cache
shared by the display channels of a client never lets the client drop a pixmap that an
earlier message of any channel still needs: over any run of steps of all channels, each
use is of a cached item, or of one that a channel is about to release, or the message
that releases it waits for the use (`Run`, and `SendImages` for a message that no other
channel interrupts). The client's cursor cache follows the server's, so that a shape said
to be cached is there when the client handles the message.

**Flow control and transport** (`CharDevice`, `AckWindow`, `Framing`). Bytes added to a
character device are written once and in order, exactly as many as its answers take of
what it is offered, a device that goes on taking gets all of them, tokens are conserved,
and a migration reproduces the state. The acknowledgement window neither goes negative
nor grows beyond its bound. However the incoming bytes are cut, all messages arrive whole
and in order.

**Statistics** (`FrameStatistics`). The cached sums and maximum of the video encoder
agree with its circular window of frames.

## Where the code does less than it seems to

Each but the last is proved as an exact condition, with a concrete input or state that
fails it; the last one is a branch that is proved dead.

- An encoder keeps 32 bits of the 64-bit image id and compares them with the whole id.
  An image is written if and only if its id is below 2^32; from there on only its header
  is (`GlzEncode.Encode`, `GlzEncode.LostImage`).
- The pixels in the window are summed in 32 bits, from counts that may fall short. Call
  missed the pixels that went uncounted, and 2^32 more for each time the sum of the
  counts wraps around. The window an encoder gets has at most `size_limit` pixels if and
  only if, in the state before, no image is misjudged: from it on the pixels, the new
  image included, exceed the limit by no more than what is missed. With all pixels
  counted that means that the sum of all pixels is below 2^32 (`HeadFitsIff`,
  `PreEncode`, `WrappedWindow`, `ShortWindow`).
- For the same reason an encoder may announce pictures that an earlier image told the
  client to drop. The head that is found is not before an earlier one if and only if none
  of the images before that one is misjudged (`HeadBackIff`, `BackWindow`).
- The lock of the pixmap cache is taken for each image, so another channel may release a
  pixmap that a message uses before that message is complete. The messages that a message
  waits for have all been sent if and only if no message that another channel is still
  putting together uses a pixmap it releases; two such messages may wait for each other
  (`SendMessage`, `CrossedWaits`).
- The segment array doubles in 32 bits, so the test for its largest size never holds. It
  grows if and only if it has fewer than 4194304000 segments (`ReallocGrows`).
- The pixels of a chunk of lines are computed from a 32-bit product of the pixels of the
  image and the lines of the chunk. They are right if and only if no product needs more;
  the offsets of segments need that of all chunks but the last (`CountsExact`,
  `LargeImageShare`).
- Migrating a character device reproduces the accounts if and only if there are pending
  bytes or no tokens outstanding: tokens spent on empty buffers are lost (`Migrate`,
  `LostToken`).
- The branch of `glz_dictionary_post_encode` that would release images is never taken: no
  active head is older than the first segment in use (`PostEncode`).

## Model

| member | source | states |
|---|---|---|
| Raster.RunWithoutDead | server/display-channel.cpp:590-692 | skipping a draw whose pixels nothing after it can see leaves the final picture alone, for every picture and every draws around it |
| Raster.RunHoist | server/display-channel.cpp:1805-1826 | a draw that is independent of all older pending draws may be executed before them |
| Raster.ExtentsGiveOffset | server/display-channel.cpp:590-692 | the left and top edges of a region and its translate give the offset back, so a copy can recompute it from reduced regions |
| Culling.ExcludeDraw | server/display-channel.cpp:590-692 | the part of a draw that is taken away is hidden; every pixel that can still be seen stays; a draw left with nothing is dead; a shadow stays the exact translate of its draw |
| Culling.ExcludeShadow | server/display-channel.cpp:590-692 | what a shadow covers is put on hold, and what is left is dead even before the copy |
| Display.DisplayChannel.FindIntersects | server/display-channel.cpp:1833-1853 | the newest draw of the surface whose exposed region meets the area, or none if there is none |
| Display.DisplayChannel.ExcludeItem | server/display-channel.cpp:590-692 | one step of the walk keeps the meaning of the list of draws and hands on a region that is dead for the rest |
| Display.DisplayChannel.ExcludeRegion | server/display-channel.cpp:714-791 | the whole walk, with draws of any kind in the list, leaves a list equivalent on every picture |
| Display.DisplayChannel.CurrentAdd | server/display-channel.cpp:1011-1041 | the list with the new draw is equivalent to the old list followed by the draw, whatever the draw hides |
| Display.DisplayChannel.CurrentAddWithShadow | server/display-channel.cpp:795-844 | the same for a copy within the surface, whose walk starts at its own shadow; a copy onto itself is dropped |
| Display.DisplayChannel.DrawDependOnMe | server/display-channel.cpp:1223-1234 | terminates with no pending draw reading the surface, and canvas and pending draws mean what they meant |
| Display.DisplayChannel.DrawUntil | server/display-channel.cpp:1805-1826 | terminates; the draws of the surface up to the given one are executed; the newest draws outside stay; the meaning is kept although nested drawing takes draws of other surfaces out of order |
| Display.DisplayChannel.DrawOldest | server/display-channel.cpp:1805-1826 | a nested draw never takes away the draw that the outer loop waits for |
| Display.DisplayChannel.DrawableDraw | server/display-channel.cpp:1629-1641 | with its inputs brought up to date, executing the draw now gives what executing it in its turn would |
| Display.DisplayChannel.SurfaceDraw | server/display-channel.cpp:1915-1925 | afterwards no pending draw writes into the area, although only draws up to the newest exposed one were executed |
| Display.DisplayChannel.ProcessDraw | server/display-channel.cpp:1317-1381 | for every next command, canvas and pending draws amount to executing every command on arrival |
| Display.DisplayChannel.Update | server/display-channel.cpp:1943-1967 | every pixel of the area is the one that executing every command on arrival gives |
| Display.DisplayChannel.FreeOneDrawable | server/display-channel.cpp:1451-1471 | executes exactly the oldest pending draw and keeps the meaning |
| Display.DisplayChannel.CurrentFlush | server/display-channel.cpp:1473-1479 | nothing is pending on the surface and all its pixels are final |
| Display.SettledIsFinal | server/display-channel.cpp:1915-1925 | a pixel that no pending draw writes has its final colour |
| GlzMatch.RefRoundTrip | server/glz-encode-match.tmpl.c:29-149 | whatever follows an encoded reference, decoding gives back the distances, the length and exactly what follows |
| GlzMatch.RefSize | server/glz-encode-match.tmpl.c:30-149 | the size that the matcher assumes is the size of the code, plus one byte for every 255 pixels from length 7 on |
| GlzFormat.TokenRoundTrip | server/glz-encode.tmpl.c:31-122 | every run of literals and every reference reads back, in each of the five pixel layouts |
| GlzFormat.GoodStreamDecodes | server/glz-encode.tmpl.c:233-447 | a stream of fitting tokens decodes to the picture as far as the layout tells pixels apart, overlapping references included |
| GlzEncoder.DoMatch | server/glz-encode.tmpl.c:127-227 | a match it reports compares equal pixel by pixel, stays within the limits, and its distances are those of the two segments |
| GlzEncoder.ReferenceIsDecodable | server/glz-encoder-priv.h:181-189 | whatever segment and pixel the hash table named, if the segment passes the test and the distance the limits, the reference points to the compared pixels in a picture that the decoder has, before the current pixel |
| GlzCompress.FindRun | server/glz-encode.tmpl.c:233-447 | a run it reports repeats the pixel before it |
| GlzCompress.Encoder.PutLiteral | server/glz-encode.tmpl.c:233-447 | one more pixel is written, and a full run is closed and another opened |
| GlzCompress.Encoder.EndRun | server/glz-encode.tmpl.c:438-443 | the provisional copy count is corrected, or withdrawn when the run is empty, and what is written is a finished stream |
| GlzCompress.Encoder.PutMatch | server/glz-encode.tmpl.c:233-447 | the biased distance and length that are written denote the matched pixels |
| GlzCompress.Encoder.FindMatch | server/glz-encode.tmpl.c:261-345 | a run or a table entry, possibly overwritten by another encoder, gives a match that the decoder can follow, or none |
| GlzCompress.Encoder.CompressStep | server/glz-encode.tmpl.c:233-447 | one round of the main loop writes the pixels it passes over |
| GlzCompress.Encoder.LookAndStep | server/glz-encode.tmpl.c:233-447 | the same when the dictionary has changed since the round before |
| GlzCompress.Encoder.CompressSeg | server/glz-encode.tmpl.c:233-447 | a whole segment is written |
| GlzCompress.Encoder.Compress | server/glz-encode.tmpl.c:454-511 | all pixels of the image are written if its id is below 2^32, and nothing otherwise |
| GlzDictionary.ValidIsReferable | server/glz-encoder-priv.h:181-189 | a segment that passes the test lies in the encoder's window, before the segment being encoded and in an image of the same type at most as far back as announced |
| GlzDictionary.WindowIsReady | server/glz-encoder-dict.c:585-593 | in every state of the dictionary an encoder's window is fit to work with |
| GlzListOps.ReleaseKeepsInv | server/glz-encoder-dict.c:364-392 | releasing the oldest image keeps the partition into used and free lists and the order of the used list |
| GlzListOps.GrowKeepsInv | server/glz-encoder-dict.c:272-314 | reallocation keeps it |
| GlzListOps.AppendKeepsInv | server/glz-encoder-dict.c:485-557 | appending a finished image keeps it, and the image gets the next id |
| GlzListOps.KillKeepsInv | server/glz-encoder-dict.c:247-257 | removing an image keeps it |
| GlzSharedDictionary.ReallocGrows | server/glz-encoder-dict.c:272-284 | the array grows if and only if it has fewer than 4194304000 segments; from there the doubling wraps to 4093640704 |
| GlzSharedDictionary.CountsExact | server/glz-encoder-dict.c:263-270 | the 32-bit counts of the pixels of the image and of its chunks are right if and only if no product is cut |
| GlzSharedDictionary.LargeImageShare | server/glz-encoder-dict.c:514-517 | an image of 4096 by 2160 pixels in one chunk gets a segment counted with 893716 pixels; in two chunks of 1080 lines its second segment starts at 446858 instead of 4423680 |
| GlzSharedDictionary.CountedAll | server/glz-encoder-dict.c:514-517 | an image is counted with at most its pixels, and with all of them if and only if the product of its last chunk is not cut |
| GlzSharedDictionary.HeadFitsIff | server/glz-encoder-dict.c:418-426 | the head found by the walk leaves room for the image if and only if no image is misjudged in the state before, that is, exceeds the limit by no more than the pixels that the sum misses; with all pixels counted, if and only if the sum of all pixels is below 2^32 |
| GlzSharedDictionary.RoomAtEnd | server/glz-encoder-dict.c:418-426 | the walk finds room before it leaves the list, whatever was counted: while there is no room the sum cannot wrap below zero |
| GlzSharedDictionary.StepWhileBusy | server/glz-encoder-dict.c:559-642 | no pre-encode, post-encode or removal by anyone touches what is in use while some encoder is at work |
| GlzSharedDictionary.SteppedTransitive | server/glz-encoder-dict.c:559-642 | neither do any number of such steps |
| GlzSharedDictionary.SharedDictionary.constructor | server/glz-encoder-dict.c:148-205 | a new or restored dictionary has all its segments free and goes on with the given id |
| GlzSharedDictionary.SharedDictionary.RemoveImage | server/glz-encoder-dict.c:247-257 | the image stops being referred to and nothing else changes |
| GlzSharedDictionary.SharedDictionary.IsInUse | server/glz-encoder-dict.c:431-440 | tells whether some encoder has a head |
| GlzSharedDictionary.SharedDictionary.GetNewHead | server/glz-encoder-dict.c:397-429 | the walk ends on the list, at the oldest image from which the 32-bit sum leaves room; whether it really does has the exact condition of HeadFitsIff, on the state before |
| GlzSharedDictionary.SharedDictionary.RemoveHead | server/glz-encoder-dict.c:444-464 | exactly the images before the head are released |
| GlzSharedDictionary.SharedDictionary.SegsRealloc | server/glz-encoder-dict.c:272-314 | an array below the largest size doubles, and its new segments are free |
| GlzSharedDictionary.SharedDictionary.AllocImageSeg | server/glz-encoder-dict.c:466-483 | takes a free segment, reallocating if there is none, and fills it in |
| GlzSharedDictionary.SharedDictionary.AddImage | server/glz-encoder-dict.c:485-557 | the image has one segment for each chunk, in order, behind those in use; its size is its pixels and the pixel counter grows by those that were counted |
| GlzSharedDictionary.SharedDictionary.PreEncode | server/glz-encoder-dict.c:559-600 | fails exactly for an image larger than the window; otherwise the image is added, the encoder's head is the first segment of the announced image, and nothing in use moves while others are at work; the window fits under the exact condition of HeadFitsIff; from the images before the head there is no room; an image whose last product is not cut leaves nothing uncounted where nothing was |
| GlzSharedDictionary.SharedDictionary.PostEncode | server/glz-encoder-dict.c:602-642 | gives up the encoder's head and changes nothing else: the branch that would release images is never taken |
| GlzSharedDictionary.WrappedWindow | server/glz-encoder-dict.c:397-429 | a dictionary with a limit of 2^31 pixels that gives an encoder a window of 2^32 |
| GlzSharedDictionary.ShortWindow | server/glz-encoder-dict.c:397-429 | a dictionary with a limit of 3686400 pixels, filled by one image in one chunk, that gives another encoder a window of 3686401 |
| GlzSharedDictionary.BackWindow | server/glz-encoder-dict.c:397-429 | three encoders at work: image 1 announces no earlier image, and image 2 announces image 0 again |
| GlzRuns.RunStepped | server/glz-encoder-dict.c:559-642 | over any run of steps of all encoders, what is in use stays as it was while an encoder is at work |
| GlzRuns.RunRemembers | server/glz-encoder-dict.c:501-504 | over any run, an id names one image only |
| GlzRuns.WorldReady | server/glz-encoder-dict.c:585-593 | the pictures an encoder needs are those sent at most as many images back as it announces |
| GlzRuns.RunWatched | server/glz-encoder-dict.c:536-553 | whenever an encoder looks at the dictionary during a run, the window is fit to work with and agrees with what it saw before |
| GlzRuns.HeadsGoOn | server/glz-encoder-dict.c:559-600 | over any run, the head of a window is not before that of an earlier window, if the window is within its limit or nobody was at work when the earlier one was given |
| GlzRuns.HeadBackIff | server/glz-encoder-dict.c:397-429 | the head that a pre-encode finds is not before an earlier one if and only if none of the images before that is misjudged |
| GlzRuns.RunCounted | server/glz-encoder-dict.c:510-531 | over any run of images that are wholly counted nothing is left uncounted |
| GlzRuns.CountedWithin | server/glz-encoder-dict.c:397-429 | where all pixels are counted and the sum does not wrap around, the window that a pre-encode gives is within its limit |
| GlzEncode.PassDecodes | server/glz-encode.tmpl.c:454-511 | one pass decodes for every decoder whose pictures look like the originals |
| GlzEncode.NothingIsLost | server/glz-encode.tmpl.c:461-486 | no decoder gets a non-empty picture out of no bytes |
| GlzEncode.HeaderRoundTrip | server/glz-encoder.c:263-276 | the header reads back, with any bytes after it |
| GlzEncode.EncodeDuring | server/glz-encoder.c:259-304 | while other encoders step in any way, the bytes written decode to the image if and only if its id is below 2^32 |
| GlzEncode.Encode | server/glz-encoder.c:224-309 | fails exactly for a bad line length or an image larger than the window; otherwise it appends header and body, and the body decodes if and only if the id is below 2^32; the encoder's head and the limit are as before and the segments in use grow by at most its chunks, so it can be called again |
| GlzEncode.EncodedReadsBack | server/glz-encoder.c:224-309 | reading the header and decoding what Encode appended give header, picture and the bytes that follow |
| GlzEncode.LostImage | server/glz-encoder.c:259-261 | with 2^32 as the next id only a header is written, and no decoder gets the picture |
| GlzEncode.NextFrame | server/glz-encoder.c:224-309 | what one more call of Encode ensures continues a decodable sequence of images |
| GlzEncode.EncodeAll | server/glz-encoder.c:224-309 | any number of calls on a new or restored dictionary: exactly the images that fit are sent under consecutive ids, the output is their headers and bodies, and replaying them gives every picture back, also to a client that drops what lies before each announced head |
| GlzEncode.ReplayShowsAll | server/glz-encoder.c:224-309 | decoding the images in the order of their ids, each with only the pictures its distance reaches, gives every picture back |
| GlzEncode.EncodedDuring | server/glz-encoder.c:259-304 | what an encoder wrote during a run is a frame of that run |
| GlzEncode.InterleavedShowsAll | server/glz-encoder-dict.c:559-642 | for any number of encoders and any interleaving of their steps, replaying all frames gives every picture back |
| GlzEncode.PlayIsReplay | server/glz-encoder.c:263-276 | for any frames whose heads never go back, a client that drops what lies before each announced head shows the same as one that keeps everything, and fails only if that fails |
| GlzEncode.PlayShowsAll | server/glz-encoder.c:263-276 | such a client gets every picture of a good sequence of frames back |
| GlzEncode.InterleavedPlays | server/glz-encoder-dict.c:559-642 | the same for any number of encoders and any interleaving of their steps, as long as each window is within its limit, or nobody was at work when the one before was given |
| GlzEncode.CountedIsRoomy | server/glz-encoder-dict.c:559-600 | in every run of images that are wholly counted and sums that do not wrap around, every window is within its limit |
| GlzEncode.AnnouncedDuring | server/glz-encoder.c:263-276 | an encoder that works in the rest of a run announces the head that its pre-encode found |
| PixmapStore.AddedRing | server/dcc.cpp:743-804 | linking an item behind the anchor makes it the first of the order |
| PixmapStore.RemovedRing | server/dcc.cpp:743-804 | unlinking an item leaves the order without it |
| PixmapCache.WaitList | server/dcc-send.cpp:235-262 | has an entry for every use by another channel that the serials cover, and none that is not there |
| PixmapCache.SyncEvicted | server/dcc.cpp:723-741 | the serials of the free list cover every use of the evicted item |
| PixmapCache.UsedNow | server/dcc.cpp:762-776 | an item's serial is that of the message about to be sent if and only if that message uses the item |
| PixmapCache.PixmapCache.Hit | server/dcc-send.cpp:50-73 | hits exactly the visible items, makes them the most recently used, and records the use |
| PixmapCache.PixmapCache.SetLossy | server/pixmap-cache.cpp:21-35 | changes the flag of a visible item and nothing else |
| PixmapCache.PixmapCache.PushRelease | server/dcc.cpp:723-741 | the item and all its uses go to the free list of the channel |
| PixmapCache.PixmapCache.Add | server/dcc.cpp:743-804 | exactly the least recently used items go for which there was no room and which the message does not use; it succeeds if and only if the channel has missed no reset, the cache is not frozen and there is then room; serials, other channels, sizes and uses are accounted for |
| PixmapCache.PixmapCache.FillBits | server/dcc-send.cpp:377-404 | a visible image is used, any other is tried as Add says; what is used bears the serial of the message; a lossy copy never serves where a lossless one is asked for; other channels are left alone |
| PixmapCache.PixmapCache.SendMessage | server/dcc-send.cpp:2289-2321 | for every released pixmap and every use of it since it was added, the message waits for the use, or the use is in an earlier message of the same channel; it waits for sent messages only if and only if no message that another channel is still putting together uses a released pixmap |
| PixmapCache.PixmapCache.SendImages | server/dcc-send.cpp:377-404 | for a message with any images that no other channel interrupts: what it takes from or puts into the cache is still cached when it is sent, under its serial; of each earlier use the item is still cached, or the message releases it and waits for the use; it waits only for messages that were sent if no other channel is in the middle of one |
| PixmapCache.PixmapCache.Run | server/dcc-send.cpp:376-404 | over any number of steps of all channels in any order, each image, message, reset and freeze being one and doing what its method states: every use is still of a cached item, or of one that some channel is about to release, or a later message has released the item and waits for the message that uses it, sent or not; messages bear consecutive serials |
| PixmapCache.CrossedWaits | server/dcc.cpp:762-790 | two channels whose images come in turns and whose messages wait for each other |
| PixmapCache.PixmapCache.Freeze | server/pixmap-cache.cpp:57-75 | hides every item and keeps them all |
| PixmapCache.PixmapCache.Clear | server/pixmap-cache.cpp:37-55 | frees exactly the cached items, those hidden by a freeze included, and gives the whole budget back |
| PixmapCache.PixmapCache.Reset | server/dcc-send.cpp:1836-1862 | empties the cache, starts a generation, releases the item of every use and waits for every use by another channel |
| PixmapCache.PixmapCache.PixmapSync | server/dcc-send.cpp:1815-1833 | the channel waits for the initiator of the reset and joins the new generation |
| LruCache.Cache.Find | server/cache-item.tmpl.cpp:43-56 | finds exactly the cached ids and moves the item to the front |
| LruCache.Cache.Insert | server/cache-item.tmpl.cpp:84-117 | evicts from the back until the item fits and announces exactly the evicted ids in that order; it fails exactly for an item larger than the cache, which is then empty |
| LruCache.Cache.Reset | server/cache-item.tmpl.cpp:119-132 | empties table, ring and budget |
| CursorChannel.CursorChannelClient.CursorFill | server/cursor-channel.cpp:38-63 | names a shape that the client has, sends any other, and the caches agree up to the announced evictions |
| CursorChannel.CursorChannelClient.SendNext | server/cursor-channel.cpp:142-167 | takes the item at the back, puts its message on the wire, and leaves evictions to be announced next |
| CursorChannel.CursorChannelClient.ProcessSet | server/cursor-channel.cpp:178-214 | the new shape is the current one and is queued at the front |
| CursorChannel.CursorChannelClient.ClientHandles | server/cursor-channel.cpp:142-167 | in every reachable state, what the client's next message takes from its cache is there and is the right shape |
| CharDevice.RedCharDevice.GetBuffer | server/char-device.cpp:447-503 | fails exactly without a token or without the client, and then changes nothing; otherwise exactly one token of the client, or one of the server, moves to the buffer, and every other account is as it was |
| CharDevice.RedCharDevice.Release | server/char-device.cpp:552-586 | the price of a buffer goes back to its client, or the token to the server |
| CharDevice.RedCharDevice.Push | server/char-device.cpp:537-550 | the bytes join the stream at its end; a buffer of a client that is gone is dropped |
| CharDevice.RedCharDevice.RefillAll | server/reds.cpp:902-914 | as many waiting server messages as there are tokens are added, in order, behind what is there, and no client's account changes |
| CharDevice.RedCharDevice.WriteToDevice | server/char-device.cpp:371-437 | for every pattern of partial and failed writes, stops and wakeups during a write: written bytes, the rest of the current buffer and the queue are the bytes added, in order; the number of bytes written and what is left of each buffer are those of draining the buffers one answer at a time, refilled messages included; it ends only when stopped, when everything is written, or after the device took nothing undisturbed; each client keeps its flow control and its tokens add up to its window |
| CharDevice.RedCharDevice.WriteEverything | server/char-device.cpp:371-437 | a device that takes at least a byte whenever it is offered some, often enough, ends with everything written that was added |
| CharDevice.RedCharDevice.Add | server/char-device.cpp:537-550 | the buffer's bytes join the stream unless its client is gone, and tokens are conserved |
| CharDevice.RedCharDevice.ClientAdd | server/char-device.cpp:632-663 | fails exactly when it has to wait for migration data and the device is in use |
| CharDevice.RedCharDevice.ClientRemove | server/char-device.cpp:121-154 | the client's buffers go, its current one is finished without an owner, all other accounts are kept |
| CharDevice.RedCharDevice.Reset | server/char-device.cpp:709-732 | nothing is pending, each client keeps its flow control and gets its queued send tokens back, and one whose buffers nobody holds has its full window back |
| CharDevice.RedCharDevice.MigrateMarshall | server/char-device.cpp:763-819 | saves the pending bytes oldest first and the tokens they cost, in 32 bits |
| CharDevice.RedCharDevice.Restore | server/char-device.cpp:821-869 | the pending bytes are those saved; the accounts come out right if and only if the saved tokens fit in the window and those spent come with bytes |
| CharDevice.Migrate | server/char-device.cpp:763-869 | the target has the same pending bytes and the same tokens of the client; its accounts come out right if and only if there are pending bytes or no tokens are outstanding |
| CharDevice.LostToken | server/char-device.cpp:763-869 | a client that has paid for a buffer and left it empty: the target never hears of the token |
| AckWindow.RedChannelClient.BeginSendMessage | server/red-channel-client.cpp:1326-1351 | counts the message; the window is what was sent since SET_ACK less a window for each accepted acknowledgement |
| AckWindow.RedChannelClient.SendItem | server/red-channel-client.cpp:1133-1143 | sends exactly when not waiting; the window never exceeds twice its size plus two |
| AckWindow.RedChannelClient.SendSetAck | server/red-channel-client.cpp:426-438 | sent exactly when not waiting, it starts a generation with a window of one; otherwise nothing changes |
| AckWindow.RedChannelClient.HandleAck | server/red-channel-client.cpp:1282-1294 | an acknowledgement of an earlier generation is ignored; one of the current generation never makes the window negative |
| AckWindow.NeverStuck | server/red-channel-client.cpp:631-637 | with nothing under way the channel is not waiting |
| Framing.ParseFrames | server/red-channel-client.cpp:1023-1119 | parsing some messages and then any bytes gives those messages first |
| Framing.IncomingChannel.PeerReceive | server/red-channel-client.cpp:987-1017 | the bytes read are the next ones of the stream; it stops short only at a pause, at the end, or when the connection is closed |
| Framing.IncomingChannel.HandleIncoming | server/red-channel-client.cpp:1023-1119 | the messages handled are those of parsing all received bytes at once; it returns only after a pause, a blocked buffer, a refusal, a closed connection or a bad message |
| Framing.IncomingChannel.HandleAll | server/red-channel-client.cpp:1023-1119 | at most one call for each pause and each block, and one more, hand over every message of the stream |
| Framing.Receive | server/red-channel-client.cpp:1023-1119 | what arrives is the messages that were sent, however reads cut the stream and wherever buffers block |
| Framing.AllDelivered | server/red-channel-client.cpp:1023-1119 | when all bytes of some messages have come in, all of them have been handled |
| FrameStatistics.SpiceGstEncoder.AddFrame | server/gstreamer-encoder.c:475-504 | the window is the newest frames, at most 21, across any wrap-around of the buffer; sums and maximum stay right |
| FrameStatistics.SpiceGstEncoder.ResetStatistics | server/gstreamer-encoder.c:670-675 | only the newest frame counts |
| FrameStatistics.SpiceGstEncoder.GetMaximumFrameSize | server/gstreamer-encoder.c:414-430 | the true maximum of the window, whether it was cached or not |
| FrameStatistics.SpiceGstEncoder.AverageEncodingTime | server/gstreamer-encoder.c:391-397 | the average of the encoding times in the window, from the cached sum |
| FrameStatistics.SpiceGstEncoder.AverageFrameSize | server/gstreamer-encoder.c:399-405 | the average of the frame sizes in the window, from the cached sum |

## Left out

- Display: containers of the item tree, the replacement of an equal draw and the scan of siblings in `current_add`; a surface's ring has one level.
- Display: video streams and the freezing of areas they cover; tracking of lossy regions.
- Display: destroying a surface, and more than one level of `free_one_drawable` retries; a draw's operations on pixels are any function of the pixels it declares to read.
- Display: regions are sets of points rather than lists of rectangles, and a culled draw is released at once.
- Glz: the fields of a segment are read as they are at one moment; what another encoder does between two reads within one round of the main loop is not modelled, other than to the hash table, which may change at any time.
- Glz: the client decodes the images in the order of their ids; how it waits for images that come in on other channels is not modelled.
- Glz: wrap-around of the 64-bit pixel counter and of the 64-bit image id; the limit of the output buffer and the callbacks that extend it.
- GlzSharedDictionary.SharedDictionary.PreEncode: asks that the offsets of the image's segments are counted right, for which `CountsExact` gives the exact condition, and that something is counted for its last chunk; what a wrong offset does to the bytes is not modelled.
- GlzSharedDictionary.SharedDictionary.AddImage: asks the same of its image.
- GlzSharedDictionary.SharedDictionary.SegsRealloc: asks for an array that can still grow, for which `ReallocGrows` gives the exact condition; the smaller array that the code would ask for beyond it is not modelled.
- GlzEncode.Encode: asks the same of its image as PreEncode, and lines of at least one pixel; the errors that follow when the callback has no more lines are not modelled.
- PixmapCache: the client, which is taken to honour the waits of a message before its releases.
- PixmapCache.PixmapCache.SendImages: is about a message that no other channel interrupts; `Run` is about every interleaving.
- PixmapCache: the urgent messages sent with mini headers, the reset that a migration leaves pending, and the marshalling of images.
- CursorChannel: cursor moves, trails and hiding are one kind of message that leaves the caches alone; the reset of the channel is two such items in the pipe.
- CursorChannel.CursorChannelClient.ClientHandles: takes from the protocol that an init message empties the client's cache and that a guest uses a unique id for one shape only.
- The palette cache, which shares the template of the cursor cache but may look up several palettes in one message.
- CharDevice: reading from the device and sending to clients, timers, and the callback that tells a client about tokens.
- CharDevice.RedCharDevice.GetBuffer: a client that asks for more than its tokens is refused here; its removal is a separate call of ClientRemove.
- AckWindow: the window is not changed by anything other than SET_ACK, acknowledgements and sending; latency checks and timers are left out.
- Framing: the maximum message size, which belongs to the channel that allocates the buffer, is one of its refusals.
- FrameStatistics: bit-rate adaptation, which is arithmetic on clocks and tuning thresholds.
- Dispatcher, event loop, sockets, inputs and main channels, and foreign codecs would only add easy members.
