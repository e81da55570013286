# A terminal and desktop console, its decoders and its registries

The repository is a web console: a browser client for VNC and telnet sessions and a server that
passes messages between them. This project models the parts of it that compute something hard to
see at a glance, and proves what they are for. Functions say what is computed; classes and methods
with loops follow the code step by step and are proved equal to the functions; lemmas about the
functions are the results.

* **Inflater** (`Numbers`, `BitStream`, `Huffman`, `DeflateFormat`, `Inflate`, `InflateTables`,
  `InflateCursor`, `InflateRoundTrip`, `InflateBytes`, `InflateSession`, `InflateTermination`, `InflateEnds`,
  `TinfTables`, `Tinf`). DEFLATE as RFC 1951 defines it, in the zlib wrapper of RFC 1950. The encoder is
  specification only: a stream is any sequence of blocks with any complete codes and any matches within the output so far.
  Reading behind the end of an array yields `undefined`, modelled as -1, and what JavaScript makes of
  it is followed exactly: a table entry that is undefined ends the walk without a symbol, and a
  truncated stored block copies undefined elements. Thrown strings are the outcome `Thrown`. The
  symbol loop can run forever on malformed data; the model gives it a number of steps, and
  `UncompressDecides` shows that more than eight a byte decide.
* **Framebuffer updates** (`Framebuffer`, `RfbFormat`, `RfbParser`, `RfbHandlers`, `RfbSplit`,
  `RfbHextile`, `RfbDescribed`, `RfbPixels`, `Websock`, `Rfb`). The parser of section 7.6.1 of RFC 6143 with the
  encodings of sections 7.7.1 to 7.7.4, as a machine that may stop anywhere and be entered again from the socket
  or from its timer. `RfbFormat` is a decoder that has a whole update; `RfbSplit` shows that the
  machine agrees with it however the bytes are cut. A session has the log level and the picture of a
  cleared display as parameters: a client that fails clears its display, cancels its timer and closes its
  socket, unless debug logging keeps the display.
* **Terminal** (`TermScreen`, `TermRefines`, `TermRuns`, `TermErase`, `TermEdits`, `TermCursor`, `TermTyping`,
  `Terminal`). One array of lines holds the
  history and the screen; dozens of operations splice it. `TermRefines` says in closed form what each
  does to the pair of history and screen, `TermErase`, `TermEdits` and `TermCursor` what a user sees of it cell by
  cell, `TermRuns` what runs keep, and `TermTyping` what text of any length does.
* **DES** (`DesTables`, `DesStandard`, `DesBits`, `Des`, `DesBoxes`, `DesRound`, `DesAgrees`,
  `DesKeyBits`, `DesKeys`, `DesCipher`). `DesTables` and `DesStandard` are FIPS 46-3 as it is printed;
  the others are the swap networks, fused tables and key loops of the code, and the proof that they
  compute it, with the bits of each key byte in the other order. That the cipher inverts is proved
  without the tables, for any round keys.
* **Topic registry** (`PubSub`, `Commands`, `Registry`). `PubSub` is what one channel sees of single operations,
  `Commands` what whole commands do to it; `Registry` are the two nested maps and the loops over them, in any order.
* **Request numbers** (`SeqMap`). A dense array with an index, and numbers kept in the messages.
* **Base64** (`Base64`). Section 4 of RFC 4648, with a decoder that skips what it does not know.

Where the code differs from what it is for, the code is modelled and the difference stated exactly, in most
cases with a concrete input:

* A Hextile subencoding of 31 is a raw tile in section 7.7.4 of RFC 6143, and refused by the client. A
  rectangle is finished exactly if it has none (`RfbHandlers.HextileFinishes`). A Raw rectangle is finished
  exactly if it has a pixel (`RfbHextile.RawFinishes`, `RfbSplit.EmptyRawThrows`). A stream of updates gets
  through exactly if it has no such tile and no Raw rectangle without pixels, however it is cut
  (`RfbSplit.ThroughExactly`), and `RfbSplit.StopsWhere` says where it stops. With tiles alone in its way the client fails (`RfbSplit.FailsExactly`), and shows its
  cleared display; an update of one pixel is enough (`RfbSplit.LegalPixelFails`).
* A count of 2^31 or more RRE subrectangles turns negative, and they are not read
  (`RfbSplit.RreCountTurnsNegative`).
* A blank Hextile tile is not drawn exactly if it follows a raw one (`RfbHextile.BlankAfterRaw`). A stream
  without such tiles shows the picture that RFC 6143 describes, however it is cut
  (`RfbDescribed.ShowsDescribed`, `RfbDescribed.DescribedExactly`); a row of 33 pixels does not
  (`RfbHextile.BlankAfterRawStays`, `RfbDescribed.Row33Shows`).
* The block loop of the inflater takes bytes that are only buffered for used ones, so that blocks may be
  lost at the end of raw DEFLATE: exactly if the read-ahead, which follows from the lengths of the codes,
  has reached the end of the source behind a block in front of the last (`InflateEnds.AllKept`,
  `InflateCursor.AllReadExactly`, `InflateEnds.BlockDropped`).
* A scroll region with a margin below the screen and a return to a cursor saved on a taller screen make it
  possible to lose count of the lines or to leave the screen; no other modelled operation does
  (`TermRuns.AllowedExactly`, `TermRuns.RegionExactly`, `TermRuns.RegionOffTheScreen`,
  `TermRuns.CursorBelowTheScreen`). The condition is that both margins lie on the screen, in any order; with
  the top margin below the bottom one, scrolling moves the lines between them the other way. With a
  scrollback of one line scrolling loses lines too, unless the region starts at the top of more than one row
  (`TermRuns.ScrollbackOfOne`, `TermRuns.ScrollbackOfOneLasts`, `TermRuns.ScrollbackOfOneBreaks`).
* Widening sets no tab stop in the new columns (`TermRuns.NoStopsInNewColumns`,
  `TermRuns.TabAfterWidening`, `TermRuns.TabPastColumn80`).
* A subscription to a channel that was closed makes it possible to close it twice or to send on it
  (`PubSub.PanicsExactly`, `PubSub.ClosedTwice`).
* A request number that is still in use is taken over (`SeqMap.Map.NewSeq`); a run does not exactly
  if every message is deleted within a circle of numbers (`SeqMap.FreeExactly`, `SeqMap.Map.Play`). With two
  numbers four calls are enough (`SeqMap.TooLate`, `SeqMap.TakenOver`).
* Characters outside the Base64 alphabet are counted in the length but skipped
  (`Base64.SkippedExactly`, `Base64.LineBreaksLeaveHoles`).

## Model

| member | source | states |
|---|---|---|
| `Numbers.OrDisjoint` | statics/include/jsunzip.js:359 | OR-ing shifted bits above a value smaller than the shift adds them |
| `BitStream.ValueDivMod` | statics/include/jsunzip.js:355-366 | shifting and masking a stretch of the stream splits it into its low bits and the rest |
| `BitStream.BufferByte` | statics/include/jsunzip.js:357-360 | OR-ing the next byte above the buffered bits gives the value of one longer stretch of the stream |
| `Huffman.NextCodeIsUsed` | statics/include/jsunzip.js:303-328 | the next-code recurrence of RFC 1951 section 3.2.2 counts the code space used by shorter codes |
| `Huffman.KraftIsUsed` | statics/include/jsunzip.js:303-328 | the Kraft sum of a length vector is the code space its canonical codes use |
| `Huffman.WalkFinds` | statics/include/jsunzip.js:387-402 | on a stream that starts with the canonical code of s, the walk ends after exactly its length at the place of s in the sorted symbols |
| `Huffman.DecodesCode` | statics/include/jsunzip.js:380-402 | decode_symbol returns s there and consumes exactly its code |
| `Huffman.CompleteDecodes` | statics/include/jsunzip.js:387-399 | with Kraft sum 1 the walk ends within the longest length on every stream |
| `Huffman.CompleteIffAlwaysDecodes` | statics/include/jsunzip.js:387-399 | among realizable length vectors, exactly the complete ones let the walk end on every stream |
| `InflateTables.TreeBuilds` | statics/include/jsunzip.js:303-328 | the counting sort yields the counts and the symbols in canonical order |
| `InflateTables.PlaceInjective` | statics/include/jsunzip.js:323-327 | two coded symbols never share a place of the sorted table |
| `InflateTables.FixedLitBuilds` | statics/include/jsunzip.js:283-292 | build_fixed_trees gives the tables of the literal lengths of RFC 1951 section 3.2.6, and the code is complete |
| `InflateTables.FixedDistBuilds` | statics/include/jsunzip.js:294-300 | the same for the distance code |
| `DeflateFormat.OrderIs` | statics/include/jsunzip.js:250-254 | the order of the code length lengths: the runs, then 0, then from 8 and 7 outwards |
| `InflateTables.LengthExtraCovers` | statics/include/jsunzip.js:591-602 | every match length has a length symbol whose extra bits reach it |
| `InflateTables.DistanceInWindow` | statics/include/jsunzip.js:591-602 | no distance that can be decoded is below 1 or beyond 32768 |
| `InflateTables.DecodesAlike` | statics/include/jsunzip.js:303-328 | entries left in the tables by an earlier block are never read |
| `InflateTables.InflatesAlike` | statics/include/jsunzip.js:483-529 | so a block decodes the same with reused tables as with fresh ones, on every input |
| `InflateRoundTrip.ReadsTokens` | statics/include/jsunzip.js:483-529 | literals and matches encoded with any codes are decoded to their LZ77 expansion, self-overlapping copies included |
| `InflateRoundTrip.ReadsStored` | statics/include/jsunzip.js:532-567 | a stored block is copied, after the bytes buffered too early are given back |
| `InflateRoundTrip.ReadsLengths` | statics/include/jsunzip.js:405-476 | runs written with codes 0 to 18 are read back to the lengths they stand for |
| `InflateRoundTrip.ReadsHeader` | statics/include/jsunzip.js:405-476 | decode_trees on an encoded header gives the tables built directly from its length vectors |
| `InflateRoundTrip.ReadsBlocks` | statics/include/jsunzip.js:636-669 | all blocks are decoded: buffered bits never make the loop stop before the last |
| `InflateRoundTrip.RoundTrip` | statics/include/jsunzip.js:614-674 | any block sequence that ends in a final block and a trailer, or in a stored block at the end of the source, is decoded from any history |
| `InflateRoundTrip.ZlibRoundTrip` | statics/include/jsunzip.js:614-674 | uncompress of a zlib stream yields the expansion of its blocks |
| `InflateBytes.CopiedExactly` | statics/include/jsunzip.js:511-526 | a match copies exactly the bytes of which each equals the one `distance` in front of it, the bytes it writes itself included |
| `InflateBytes.CopyRepeats` | statics/include/jsunzip.js:521-526 | so byte k of a match is byte k modulo the distance of the last `distance` bytes |
| `InflateBytes.ExpandsExactly` | statics/include/jsunzip.js:483-529 | the expansion of tokens is exactly the history with, token after token, each literal and each match's bytes behind it |
| `InflateBytes.ReadsBytes` | statics/include/jsunzip.js:483-529 | the symbol loop leaves these bytes |
| `InflateBytes.BlocksSpell` | statics/include/jsunzip.js:636-669 | over all blocks of a stream, with stored bytes as literals |
| `InflateBytes.UncompressSpells` | statics/include/jsunzip.js:614-674 | so uncompress returns the history and the bytes that the tokens of the stream spell |
| `InflateSession.CopyLonger` | statics/include/jsunzip.js:511-526 | a copy reads only the last bytes up to its distance, so older history does not matter |
| `InflateSession.TrimmingIsLossless` | statics/include/jsunzip.js:614-674 | any sequence of calls answers the same with history cut to 32768 bytes after each as with all of it kept |
| `InflateSession.SegmentsRoundTrip` | statics/include/jsunzip.js:614-674 | segments of one stream, each given to its own call, are decoded one after the other |
| `InflateTermination.UncompressDecides` | statics/include/jsunzip.js:490-528 | a source either makes the symbol loop run forever or ends within eight steps a byte: the bound of the model does not matter above that |
| `InflateTermination.Decompresses` | statics/include/jsunzip.js:614-674 | the round trip with only that bound, for every valid stream |
| `InflateCursor.AllReadExactly` | statics/include/jsunzip.js:669 | the loop gets to the last of a series of blocks exactly if the read-ahead stops short of the end of the source behind each of the others |
| `InflateEnds.BlocksKept` | statics/include/jsunzip.js:636-669 | of any valid blocks the loop decodes the first k, where k follows from the lengths of their codes alone: it stops early only at a block behind which no more of the source was left than was buffered |
| `InflateEnds.AllKept` | statics/include/jsunzip.js:614-674 | so a call yields exactly the expansion of the blocks up to the first behind which the read-ahead has reached the end of the source, and of all of them exactly if there is none such in front of the last |
| `InflateEnds.KeptIf` | statics/include/jsunzip.js:357-397 | in bits: no block is lost if behind each but the last more follows than can be buffered, and one is if behind one no more follows than is buffered in any case |
| `InflateEnds.BlockDropped` | statics/include/jsunzip.js:636-669 | four bytes of raw DEFLATE hold two blocks, and the second is lost |
| `TinfTables.BuildTree` | statics/include/jsunzip.js:303-328 | the loops that fill the arrays end in tables that start with the specified ones |
| `TinfTables.BuildBitsBase` | statics/include/jsunzip.js:261-275 | the loops compute the extra bits and bases |
| `TinfTables.LengthTablesAreRight` | statics/include/jsunzip.js:591-602 | with the special case for 258 these are the length tables of RFC 1951 section 3.2.5 |
| `TinfTables.DistanceTablesAreRight` | statics/include/jsunzip.js:591-602 | and the distance tables |
| `Tinf.Inflater.GetBit` | statics/include/jsunzip.js:335-352 | one bit is taken from the position that index and bit count stand for; the tag stays the next bits of the stream |
| `Tinf.Inflater.ReadBits` | statics/include/jsunzip.js:355-377 | num bits are taken from there, and the buffer never overflows |
| `Tinf.Inflater.DecodeSymbol` | statics/include/jsunzip.js:380-402 | the loop over the tables computes the walk |
| `Tinf.Inflater.CopyMatch` | statics/include/jsunzip.js:521-526 | every new byte of the history equals the one `distance` in front of it; what was there stays |
| `Tinf.Inflater.InflateBlockData` | statics/include/jsunzip.js:483-529 | dest and history grow by what the specification says |
| `Tinf.Inflater.InflateUncompressedBlock` | statics/include/jsunzip.js:532-567 | the same for a stored block, with an incomplete source |
| `Tinf.Inflater.DecodeTrees` | statics/include/jsunzip.js:405-476 | the header loops fill the tables |
| `Tinf.Inflater.Uncompress` | statics/include/jsunzip.js:614-674 | status, data and history after a call, for every source and history |
| `Tinf.DecompressAll` | statics/include/jsunzip.js:614-674 | the answers of a sequence of calls are those of a session |
| `Tinf.Decompress` | statics/include/jsunzip.js:143-146 | a new inflater can be called at once, and answers as specified |
| `Tinf.Inflates` | statics/include/jsunzip.js:614-674 | the round trip by the class itself: a new inflater returns what was compressed |
| `RfbHandlers.DrawsTile` | statics/include/rfb.js:1582-1636 | a tile that has arrived whole is drawn as RFC 6143 section 7.7.4 lays it out |
| `RfbHandlers.TileWaits` | statics/include/rfb.js:1544-1580 | before that the handler waits for no more bytes than the tile has, and once it has what it waits for the tile is whole |
| `RfbHandlers.HexLoop` | statics/include/rfb.js:1528-1643 | the tile loop draws what has arrived, keeps the carried colours, and stops at the first tile that has not |
| `RfbHandlers.HextileFinishes` | statics/include/rfb.js:1528-1643 | with all its bytes there, a rectangle of legal tiles is finished exactly if none has mask 31; otherwise the client fails and has drawn exactly the tiles in front of the first one |
| `RfbHandlers.RreLoop` | statics/include/rfb.js:1506-1515 | the subrectangle loop draws those that have arrived whole |
| `RfbHandlers.RawStep` | statics/include/rfb.js:1454-1478 | Raw draws the whole rows that have arrived; the bands make the picture of the rectangle |
| `RfbHandlers.HandleStep` | statics/include/rfb.js:1454-1643 | every handler, at every point of its rectangle and with any part of it arrived, draws that part, remembers the rest, and waits for no more than is left |
| `RfbSplit.RectsLoop` | statics/include/rfb.js:1197-1273 | the loop over rectangles ends the update or stops with less in the queue than the update still has; each turn decreases rectangles, bytes or the wait |
| `RfbSplit.CallStep` | statics/include/rfb.js:1142-1274 | one call of the message handler completes exactly one update or leaves it to be continued |
| `RfbSplit.StopsWhere` | statics/include/rfb.js:593-623 | for every cutting of a stream of legal updates into messages and every timing of the timer, the client ends where the stream as a whole says: with everything drawn, failed and cleared at a tile of mask 31, or thrown or waiting at a Raw rectangle without pixels |
| `RfbSplit.ThroughExactly` | statics/include/rfb.js:593-623 | it gets through, with every byte read and every update counted, exactly if no tile has mask 31 and every Raw rectangle has a pixel |
| `RfbSplit.FailsExactly` | statics/include/rfb.js:593-623 | for a stream whose Raw rectangles have pixels, the client ends failed exactly if some tile has mask 31; it then shows the cleared display, or with debug logging what is in front of the first such tile |
| `RfbSplit.AnyCutting` | statics/include/rfb.js:593-623 | then the final picture is the one the updates describe, every byte is read and every update counted once |
| `RfbSplit.Completes` | statics/include/rfb.js:606-618 | the timer has to fire at most once more than there are updates for the end of FailsExactly to be reached |
| `RfbSplit.NeverWaitsForTooMuch` | statics/include/rfb.js:1197-1265 | at every moment of every run, if Raw rectangles have pixels, nothing has been thrown, what is left is known exactly, the parser waits for no byte that the stream does not hold, and it has failed and cleaned up only at a tile of mask 31 |
| `RfbSplit.LegalPixelFails` | statics/include/rfb.js:1543-1546 | an update of one pixel in a tile of mask 31 fails, however it is cut, and the display is cleared |
| `RfbSplit.EmptyRawThrows` | statics/include/rfb.js:1454-1478 | an update with a Raw rectangle of no columns makes the client throw before it is done with it |
| `RfbSplit.RreCountTurnsNegative` | statics/include/rfb.js:1497-1526 | the count of an RRE rectangle is read as a signed number; from 2^31 on the background is drawn, the rectangle counts as finished and its subrectangles stay unread |
| `RfbHextile.TilesPartition` | statics/include/rfb.js:1549-1556 | a pixel lies in tile k exactly if it lies in the rectangle and k is computed from its coordinates: no gap and no overlap |
| `RfbHextile.HextilePixels` | statics/include/rfb.js:1528-1643 | each pixel gets the colour its own tile gives it in the colours carried there, in a raw tile that of its place in reading order; all others stay |
| `RfbHextile.BlankAfterRaw` | statics/include/rfb.js:1585-1591 | the client shows a blank tile as the carried background exactly if it does not directly follow a raw tile |
| `RfbHextile.BlankAfterRawStays` | statics/include/rfb.js:1585-1591 | in a row of 33 pixels, of a background tile, a raw tile and a blank tile, the last pixel keeps the colour it had |
| `RfbDescribed.ShowsDescribed` | statics/include/rfb.js:1528-1643 | however a stream is cut, the client ends with the picture in which every blank tile is drawn in the background in force, if no blank tile follows a raw one |
| `RfbDescribed.DescribedExactly` | statics/include/rfb.js:1585-1591 | each rectangle of a stream is painted so, on every picture, exactly if none does, in a rectangle or across two |
| `RfbDescribed.Row33Shows` | statics/include/rfb.js:1585-1591 | an update with the row of 33 pixels shows the old colour in the last one, however it is cut, where the background is described |
| `RfbHextile.RawFinishes` | statics/include/rfb.js:1454-1478 | a Raw rectangle whose bytes are there is finished exactly if it has a pixel |
| `Framebuffer.BlitPixels` | statics/include/display.js:602-628 | an image shows its pixels in reading order, blue, green and red from their bytes or through the colour map, and no other pixel changes |
| `Framebuffer.CopyPixels` | statics/include/display.js:338-345 | a copied rectangle shows, pixel by pixel, what was at its source before, where both overlap too |
| `RfbPixels.SubrectsPixel` | statics/include/rfb.js:1508-1516 | of RRE subrectangles the last one over a pixel is on top |
| `RfbPixels.RectDrawn` | statics/include/rfb.js:1454-1526 | every pixel after a Raw, CopyRect or RRE rectangle is the one that its bytes, its source or its subrectangles give it, and all others stay |
| `RfbPixels.LastRectShows` | statics/include/rfb.js:593-623 | however a stream is cut that ends with such a rectangle, the client's picture is the one drawn in front of it with exactly these pixels changed |
| `Websock.Queue.Shift16` | statics/include/websock.js:120-123 | two unread bytes as a number, and the index moves over them |
| `Websock.Queue.Shift32` | statics/include/websock.js:125-130 | four unread bytes, signed as JavaScript shifts make it |
| `Websock.Queue.WaitBack` | statics/include/websock.js:156-168 | whether to wait, with the index moved back if so |
| `Websock.Queue.PushText` | statics/include/websock.js:333-344 | a message in base64 arrives like its bytes |
| `Websock.Queue.Compact` | statics/include/websock.js:346-356 | dropping what has been read leaves the unread bytes as they are |
| `Rfb.Client.Fail` | statics/include/rfb.js:588-591 | a failure cancels the timer and clears the display, unless logging is at debug |
| `Rfb.Client.Raw` | statics/include/rfb.js:1454-1478 | the handler leaves the fields, queue and picture of the specified step |
| `Rfb.Client.Rre` | statics/include/rfb.js:1497-1526 | the same, with its loop |
| `Rfb.Client.Hextile` | statics/include/rfb.js:1528-1643 | the same, with the loops over tiles and subrectangles and the peeked index |
| `Rfb.Client.Rects` | statics/include/rfb.js:1197-1273 | the loop of _framebufferUpdate |
| `Rfb.Client.NormalMsg` | statics/include/rfb.js:1142-1195 | a message, with an update header that is put back when it is incomplete |
| `Rfb.Client.RecvMessage` | statics/include/websock.js:346-356 | a websocket message, the handler and the compaction make one step of the session |
| `Rfb.Client.RecvText` | statics/include/websock.js:333-356 | a message in base64 makes the step of its bytes |
| `Rfb.Client.Show` | statics/include/rfb.js:1142-1274 | the client itself, fed with bytes or with base64, has got through exactly under that condition and shows the picture the updates describe; with tiles of mask 31 alone in the way it has failed and is cleared |
| `TermRefines.ScrollRefines` | statics/telnet/term.js:1376-1414 | on the pair of history and screen scroll moves the region up, or with its margins the wrong way round the lines between them down; the top line joins the history only if the region starts there; a full history loses its older half |
| `TermRefines.IndexRefines` | statics/telnet/term.js:2935-2942 | line feed and IND move the cursor or scroll |
| `TermRefines.ReverseIndexRefines` | statics/telnet/term.js:2945-2961 | RI moves the cursor or shifts the lines from it to the bottom margin down, or up the lines between if the margin is above it |
| `TermRefines.InsertLinesRefines` | statics/telnet/term.js:3414-3434 | IL n shifts the lines from the cursor to the bottom margin down by n and no others; below the margin it shifts the lines between |
| `TermRefines.DeleteLinesRefines` | statics/telnet/term.js:3438-3458 | DL n is the converse |
| `TermRefines.ScrollUpRefines` | statics/telnet/term.js:4043-4052 | SU n shifts exactly the region up by n, and down if its margins are the wrong way round |
| `TermRefines.ScrollDownRefines` | statics/telnet/term.js:4055-4064 | SD n shifts exactly the region down by n, and up if its margins are the wrong way round |
| `TermRefines.InsertCellsShifts` | statics/telnet/term.js:3364-3378 | ICH n moves the rest of the line right, by no more than the columns left |
| `TermRefines.DeleteCellsShifts` | statics/telnet/term.js:3462-3475 | DCH n moves the rest of the line left; behind its end the line grows up to the cursor |
| `TermRefines.EraseCellsBlanks` | statics/telnet/term.js:3479-3492 | ECH n blanks n cells, but none behind the last column |
| `TermErase.ErasesInLine` | statics/telnet/term.js:3096-3108 | EL erases exactly the cells of the cursor's line at or behind it, at or before it, or all; other cells, history and cursor stay |
| `TermErase.ErasesInDisplay` | statics/telnet/term.js:3060-3083 | ED does so for the screen in reading order |
| `TermEdits.BlankIs` | statics/telnet/term.js:2895-2910 | new lines are blank, in the current background or plain |
| `TermEdits.Inserts` | statics/telnet/term.js:3364-3378 | cell by cell, ICH opens a gap of erased cells at the cursor |
| `TermEdits.Deletes` | statics/telnet/term.js:3462-3475 | DCH closes one, with erased cells from the end of the line |
| `TermEdits.Blanks` | statics/telnet/term.js:3479-3492 | ECH erases cells from the cursor on |
| `TermEdits.InsertsLines` | statics/telnet/term.js:3414-3458 | IL and DL shift the lines from the cursor to the bottom margin by their count, and no others |
| `TermEdits.ScrollsRegion` | statics/telnet/term.js:4043-4064 | SU and SD the region |
| `TermEdits.FeedsLine` | statics/telnet/term.js:2935-2942 | a line feed, IND and NEL go down or scroll the region, and keep or return the column |
| `TermEdits.ReversesIndex` | statics/telnet/term.js:2945-2961 | RI goes up or shifts the lines from the cursor to the bottom margin down by one |
| `TermCursor.Addressed` | statics/telnet/term.js:3023-3048 | CUP, HVP, VPA and HPA go to the nearest place on the screen, counted from 1, and CHA to any column |
| `TermCursor.Moves` | statics/telnet/term.js:2983-3019 | CUU, CUD, CUF, CUB, CNL and CPL move by their count up to the edge |
| `TermCursor.SetsRegion` | statics/telnet/term.js:4007-4013 | a scroll region has the given first and last row, and the cursor goes home |
| `TermCursor.CursorRoundTrip` | statics/telnet/term.js:4017-4027 | a saved cursor comes back after any run that does not save another |
| `TermCursor.NextStopIs` | statics/telnet/term.js:2861-2867 | a tab goes to the first stop behind the cursor or the last column |
| `TermCursor.StopBeforeIs` | statics/telnet/term.js:2853-2859 | a back tab to the last stop in front of it or the first column |
| `TermCursor.ResetLeaves` | statics/telnet/term.js:2964-2969 | a reset leaves blank rows without history, the cursor at home, the whole screen as the region and a stop at every eighth column |
| `TermRuns.ResizeRefines` | statics/telnet/term.js:2747-2820 | a resize keeps the history and the top of the screen, pads or cuts every line, and keeps the invariant |
| `TermRuns.NoStopsInNewColumns` | statics/telnet/term.js:2838-2851 | a resize changes no tab stop from the old right edge on, whatever stops a wider screen has left there |
| `TermRuns.TabAfterWidening` | statics/telnet/term.js:2861-2868 | so from the old last column or beyond a tab goes to the new last column exactly if none of the old stops lies between |
| `TermRuns.TabPastColumn80` | statics/telnet/term.js:2861-2868 | from column 79 of a screen widened from 80 to 132 columns a tab goes to column 131 |
| `TermRuns.KeptExactly` | statics/telnet/term.js:4007-4027 | the same operations exactly keep the invariant of the model, which has the margins on the screen |
| `TermRuns.AllowedExactly` | statics/telnet/term.js:4007-4027 | an operation leaves a buffer whose lines, view and cursor stay where they belong, whatever follows, exactly if it is not a scroll region with a margin below the screen and not a return to a cursor saved below it |
| `TermRuns.RegionExactly` | statics/telnet/term.js:4007-4013 | for a scroll region: exactly if neither parameter is above the number of rows; otherwise SU or SD miscounts the lines |
| `TermRuns.RegionOffTheScreen` | statics/telnet/term.js:4007-4027 | after CSI 1;100 r on a new terminal of 24 rows, 24 line feeds take the cursor off the screen |
| `TermRuns.CursorBelowTheScreen` | statics/telnet/term.js:4017-4027 | a cursor saved in row 24 and restored after a resize to 10 rows is in row 24 |
| `TermRuns.Run` | statics/telnet/term.js:1428-1541 | so every state of every run without those satisfies it |
| `TermRuns.ScrollbackOfOne` | statics/telnet/term.js:1376-1403 | with a scrollback of one line scroll keeps the shape exactly if the region starts at the top of more than one row |
| `TermRuns.ScrollbackOfOneLasts` | statics/telnet/term.js:1376-1414 | and a terminal that keeps one line stays intact through every run of line feeds, IND, NEL, RI, IL, DL, SU and SD exactly if its region starts at the top of more than one row |
| `TermRuns.ScrollbackOfOneBreaks` | statics/telnet/term.js:1376-1403 | CSI 2;24 r and a line feed in the last row of 24 leave 23 lines |
| `TermRuns.HistoryStep` | statics/telnet/term.js:1376-1414 | no operation on a screen touches the history except scrolling |
| `TermRuns.HistoryIsYoungest` | statics/telnet/term.js:1376-1414 | after any run the history is the youngest part of what it was and all that was handed over: nothing lost in the middle, changed or reordered; lines are dropped only once the scrollback was full, always in halves of it, and scrollback / 2 - 1 of them survive |
| `TermRuns.AlternateRoundTrip` | statics/telnet/term.js:3798-3822 | whatever is done on the alternate screen, short of a resize or reset, leaving it brings back the buffer |
| `TermTyping.TypedText` | statics/telnet/term.js:1509-1538 | text that fits in the rest of a line replaces its cells and changes nothing else but the column |
| `TermTyping.RowsFull` | statics/telnet/term.js:1515-1538 | text of any length comes to rows of which every one but the last is full, the first from the cursor's column on |
| `TermTyping.RowsJoined` | statics/telnet/term.js:1515-1538 | in which no narrow character is lost or out of order |
| `TermTyping.TypedRows` | statics/telnet/term.js:1509-1538 | typing text of any length, with wide characters or without, lays its rows one below the other: between two of them a line feed goes down, or scrolls the region at its bottom margin |
| `Terminal.Terminal.Scroll` | statics/telnet/term.js:1376-1414 | the splices of the array do what the functions say, and no line is shared |
| `Terminal.Terminal.InsertLines` | statics/telnet/term.js:3414-3434 | the loop of splices |
| `Terminal.Terminal.EraseInDisplay` | statics/telnet/term.js:3060-3083 | the loops over lines that are overwritten in place |
| `Terminal.Terminal.Print` | statics/telnet/term.js:1509-1538 | wrapping and writing the cells of a character |
| `Terminal.Terminal.Resize` | statics/telnet/term.js:2747-2820 | the loops that pad or cut lines and add or drop rows |
| `Terminal.Terminal.EnterAlternate` | statics/telnet/term.js:3798-3822 | the screen that is put aside shares no line with the new one |
| `Terminal.Terminal.Do` | statics/telnet/term.js:1428-1541 | any operation leaves the specified terminal, with no line shared within or between the screens |
| `Terminal.Terminal.Play` | statics/telnet/term.js:1428-1541 | and so does any run |
| `DesBits.Wires4` | statics/include/des.js:196-198 | an exchange by exclusive or swaps the masked bits |
| `Des.ExchangeTwice` | statics/include/des.js:196-207 | each exchange undoes itself |
| `Des.InitialIsIp` | statics/include/des.js:188-213 | the swap networks compute the initial permutation of FIPS 46-3, with both halves rotated by a bit |
| `Des.InitialUndoesFinal` | statics/include/des.js:238-256 | the networks behind and in front of the rounds undo each other with the halves exchanged |
| `Des.RoundsUndo` | statics/include/des.js:215-236 | rounds with the keys reversed go back, whatever the round function |
| `Des.Inverts` | statics/include/des.js:188-266 | for every table, every round keys and every block, the cipher with the key pairs reversed returns the block |
| `Des.Bijective` | statics/include/des.js:188-266 | so it is a bijection on blocks |
| `DesCipher.Cipher.Encrypt8` | statics/include/des.js:188-266 | the eight turns of the loop over the key array compute it |
| `DesBoxes.Fused1` | statics/include/des.js:93-97 | every element of SP1 is box S1 of FIPS 46-3 with P behind it, rotated by a bit |
| `DesBoxes.Fused2` | statics/include/des.js:98-102 | every element of SP2 is box S2 of FIPS 46-3 with P behind it, rotated by a bit |
| `DesBoxes.Fused3` | statics/include/des.js:103-107 | every element of SP3 is box S3 of FIPS 46-3 with P behind it, rotated by a bit |
| `DesBoxes.Fused4` | statics/include/des.js:108-112 | every element of SP4 is box S4 of FIPS 46-3 with P behind it, rotated by a bit |
| `DesBoxes.Fused5` | statics/include/des.js:113-117 | every element of SP5 is box S5 of FIPS 46-3 with P behind it, rotated by a bit |
| `DesBoxes.Fused6` | statics/include/des.js:118-122 | every element of SP6 is box S6 of FIPS 46-3 with P behind it, rotated by a bit |
| `DesBoxes.Fused7` | statics/include/des.js:123-127 | every element of SP7 is box S7 of FIPS 46-3 with P behind it, rotated by a bit |
| `DesBoxes.Fused8` | statics/include/des.js:128-132 | every element of SP8 is box S8 of FIPS 46-3 with P behind it, rotated by a bit |
| `DesRound.FusedRound` | statics/include/des.js:214-236 | eight lookups OR-ed together, on a rotated half and the words of a round key, are the rotated cipher function f(R, K) |
| `DesAgrees.RoundsAgree` | statics/include/des.js:214-236 | the rounds leave the rotated preoutput of FIPS 46-3, for all round keys |
| `DesAgrees.InitialAgrees` | statics/include/des.js:192-212 | the networks in front compute the printed table IP |
| `DesAgrees.FinalAgrees` | statics/include/des.js:238-266 | those behind the rounds compute the printed table of its inverse |
| `DesAgrees.Agrees` | statics/include/des.js:188-266 | with the tables of the code and the round keys of the standard, enc8 enciphers as FIPS 46-3 does, for every key and block |
| `DesKeys.FirstChoice` | statics/include/des.js:140-144 | the running bit number chooses what PC1 does, from a key with the bits of each byte reversed |
| `DesKeys.Rotate` | statics/include/des.js:150-159 | both halves rotated, each within itself |
| `DesKeys.RotatedHolds` | statics/include/des.js:88-159 | rotating once by totrot gives the halves that the standard reaches by single shifts round after round |
| `DesKeys.PickBits` | statics/include/des.js:160-167 | the loop sets the bits that PC2 picks |
| `DesKeys.Collects0` | statics/include/des.js:160-167 | they are the first half of the printed PC2 |
| `DesKeys.Collects1` | statics/include/des.js:160-167 | and the second |
| `DesKeys.Cookey` | statics/include/des.js:171-184 | the groups of six are laid out one a byte |
| `DesCipher.Cipher.SetKeys` | statics/include/des.js:136-185 | the array ends as the key schedule of FIPS 46-3, for passwords of any length and characters |
| `DesCipher.GenDes` | statics/include/rfb.js:1441-1447 | the answer to an authentication challenge is its first and its second eight bytes, each enciphered as FIPS 46-3 does, with the mirrored password as key; bytes that are missing count as zero |
| `PubSub.SubscriptionsAre` | src/server/pubsub.go:154-209 | a channel is subscribed as the last operation that concerns it says |
| `PubSub.ExactDelivery` | src/server/pubsub.go:166-175 | the messages on a channel are, in order, those published on topics it was subscribed to at that moment, one for each topic |
| `PubSub.OnceGetsAtMostOne` | src/server/pubsub.go:166-175 | a channel of SubOnce that is never added to gets at most one message and has no subscription after it |
| `PubSub.PanicsExactly` | src/server/pubsub.go:189-209 | in every run, something is sent on a channel or it is closed after it was closed exactly if, after it had lost its last topic, it loses it again or something is published on a topic of it; and it is closed exactly if it has lost its last topic |
| `PubSub.AddedBetween` | src/server/pubsub.go:154-164 | for that a subscription has to be added in between |
| `PubSub.ShutdownPanics` | src/server/pubsub.go:140-144 | in a run that ends in a shutdown it happens exactly if a channel is added after it was closed |
| `PubSub.ClosedTwice` | src/server/pubsub.go:189-209 | adding, removing and adding a channel again before the shutdown closes it twice |
| `PubSub.ShutdownCloses` | src/server/pubsub.go:140-144 | after a shutdown every channel that was ever added is closed, once and last, and has no subscription |
| `Commands.DoesIs` | src/server/pubsub.go:107-137 | the loop over the topics of a command comes to what the command does to a channel with all its topics at once |
| `Commands.SubAdds` | src/server/pubsub.go:120-126 | Sub subscribes its channel, and no other, to exactly the listed topics with its flag |
| `Commands.UnsubEnds` | src/server/pubsub.go:131-132 | Unsub ends exactly its channel's subscriptions to the listed topics and leaves other channels as they were; the channel is closed with its last |
| `Commands.CloseEnds` | src/server/pubsub.go:134-135 | closing topics ends every channel's subscriptions to them |
| `Commands.PubPuts` | src/server/pubsub.go:128-129 | Pub puts one message for each listed topic the channel is subscribed to, up to the first that it is subscribed to once, which ends all of them |
| `Commands.HoldsIs` | src/server/pubsub.go:107-145 | after any commands a channel is subscribed to a topic as the last command that concerns both says |
| `Commands.ReceivedIs` | src/server/pubsub.go:107-145 | and has got, in order, the messages published on topics it was subscribed to at that moment |
| `Registry.Registry.AddTo` | src/server/pubsub.go:154-164 | both maps get the subscription |
| `Registry.Registry.RemoveFrom` | src/server/pubsub.go:189-209 | both maps lose it, inner maps that become empty go, and the channel is closed with its last topic |
| `Registry.Registry.SendTo` | src/server/pubsub.go:166-175 | whatever the order of the loop, every channel sees what it would see alone |
| `Registry.Registry.RemoveAll` | src/server/pubsub.go:177-181 | the same for a topic that is closed while the loop ranges over it |
| `Registry.Registry.Start` | src/server/pubsub.go:107-145 | the command loop: every channel ends as the list of commands says, each with all its topics, up to the first shutdown, after which both maps are empty |
| `SeqMap.Map.NewSeq` | src/server/seqmap.go:30-55 | it panics exactly when full; otherwise the number of the message maps to it, a message that held the number is displaced and returned, all other entries and places stay, and the arrays stay inverse exactly if the number is free, the message is not waiting and the number fits sixteen bits |
| `SeqMap.Map.DelSeq` | src/server/seqmap.go:57-87 | the swap with the last message removes exactly the entry, and the message is returned |
| `SeqMap.Map.GetData` | src/server/seqmap.go:89-104 | lookup |
| `SeqMap.IssuedInCircle` | src/server/seqmap.go:30-34 | the k-th number, which `SeqMap.Map.Play` gives out, is k modulo the size |
| `SeqMap.ReusedAfterACircle` | src/server/seqmap.go:30-34 | a number comes back after exactly as many calls as there are places |
| `SeqMap.FreeExactly` | src/server/seqmap.go:30-87 | in a run of insertions and deletions every insertion finds its number free exactly if each message is deleted before as many others were inserted as there are numbers |
| `SeqMap.Map.Play` | src/server/seqmap.go:30-87 | such a run never panics, displaces nothing, gives out k modulo the size at the k-th insertion, and leaves the map of the messages still waiting |
| `SeqMap.TooLate` | src/server/seqmap.go:30-87 | with two numbers, two insertions, a deletion of the second message and an insertion give out a number in use |
| `SeqMap.TakenOver` | src/server/seqmap.go:30-87 | on the map itself: the first message is displaced, and keeps its place in the array though it has lost its number |
| `Base64.Quantum` | statics/include/base64.js:23-45 | each group of bytes is written as the digits of its number in base 64 |
| `Base64.Table1` | statics/include/base64.js:12-62 | the alphabet is Table 1 of RFC 4648 with its pad, and no other character has a value |
| `Base64.RoundTrip` | statics/include/base64.js:63-112 | every byte string comes back, the computed length is filled exactly, and no bits are left over |
| `Base64.FailsExactly` | statics/include/base64.js:81-108 | decoding fails exactly if the number of characters that count is no multiple of four |
| `Base64.SkippedExactly` | statics/include/base64.js:73-91 | with other characters in between the bytes come back alone exactly if none of those stands in front of the first pad, or only one and the bytes are a multiple of three |
| `Base64.LineBreaksLeaveHoles` | statics/include/base64.js:73-91 | a line break at the end is enough for an undefined element |
| `Base64.EncodeLoop` | statics/include/base64.js:15-47 | the loop computes the encoding |
| `Base64.DecodeLoop` | statics/include/base64.js:63-112 | the loop with its accumulator computes the decoding, on every input |

## Left out

- Inflater: the ZIP container reader, and the checks of the zlib header and of the Adler-32 trailer,
  which the code does not make either; the header is skipped and the trailer ignored.
- Framebuffer updates: the handshake, authentication, colour map changes, cut text and XVP messages,
  the pseudo-encodings and Tight; the machine enters the status `Outside` at them. Statistics and the
  update requests sent back are not modelled. A client that has failed cleans up a second time 50 ms later,
  which changes nothing that is modelled.
- Display: the canvas is a picture of rows that ignores drawing outside itself; the viewport and the
  drawing queue, which is empty without images to load, are not modelled; Hextile takes the path with
  `prefer_js` off.
- `Websock.Queue.Shift16`: is only stated when the bytes are there, as every caller has checked.
- `Websock.Queue.Shift32`: is only stated when the bytes are there, as every caller has checked.
- `RfbSplit.StopsWhere`: the streams have counts of RRE subrectangles below 2^31, each of which takes
  at least nine bytes; `RfbSplit.RreCountTurnsNegative` says what larger counts do. Behind one the client
  takes the subrectangles for messages, so where it ends depends on how they read: those made of twos are bells.
- Terminal: the escape sequence parser, selection and search, the mouse, keys, character sets, colours,
  titles, REP and one-argument HVP; characters arrive after the character set was applied. `refresh`
  and the DOM rows that a resize adds are not modelled.
- `TermRuns.ScrollbackOfOneLasts`: the runs are of operations that feed or splice lines; the others are modelled for a
  scrollback of at least two lines.
- `Terminal.Terminal.EraseInDisplay`: erasing to the left of a cursor that is behind the end of its
  line writes every column, so the intermediate holes of the array are not modelled.
- DES: the handshake message that carries a challenge, whose length of 16 bytes its caller checks.
- Topic registry: a send that blocks because the channel is full, and the panic itself: what is put on
  a channel after it was closed is recorded, and `PubSub.PanicsExactly` says when there is any.
- Request numbers: the message bus around them, whose timer branch does not return.
- Base64: character codes are numbers; the error object is the result `Corrupted`.
