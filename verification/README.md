# Video player for 3DS: verified models

Dafny models of four parts of the player, with proofs of what they are for. Each part has a specification on values,
main theorems about it, and, where the program works in place, classes and methods proved against it.

- **Decoders of `stb_image.h`.** Inflate (`Bits`, `CanonicalCode`, `ZHuffman`, `InflateSpec`, `ZBuf`) refines a pure
  decoder written from RFC 1951 and RFC 1950; `InflateEncode` and `InflateStreams` close the round trip for any blocks,
  `DeflateFixed` writes the fixed codes bit for bit, and `InflateRefusals` says what is refused. PNG un-filtering and
  Adam7 (`PngSpec`, `PngFormat`, `Png`, `Adam7`, `PngInterlace`; `PngPixels` says what each byte means, and `PngPasses`
  has the round trip), GIF LZW with interlacing (`GifSpec`, `GifScan`, `Gif`; `GifOrder` by rows and columns, and the
  encoder in `GifEncode`, `GifPack` and `GifImage`), and the JPEG AC coefficients with their fast tables (`JpegSpec`,
  `JpegHuffman`, `Jpeg`; `JpegOrder` by rows and columns, and the encoder in `JpegEncode`) follow RFC 2083, GIF89a and
  ITU-T T.81. `Context` is the byte source; `BitStrings`, `Multiples`, `Options` and `Folding` are shared helpers.
- **The JSON tokenizer `jsmn.h`** (`JsmnSpec`, `JsmnNesting`, `JsmnParser`, `JsmnTrees`, `JsmnSizes`): bracket matching
  against an independent stack automaton, the tokens of any text of the grammar of RFC 8259 with their sizes, the sizing
  pass, and resuming after a lack of tokens.
- **The player engine of `video_player.c`.** `PlayerModel` is the decode thread and the three threads around it as steps
  over FIFO queues; `PlayerInvariants`, `PlayerMessages`, `PlayerVideo`, `PlayerConvert`, `PlayerRuns`, `PlayerAborts`,
  `PlayerSeeks`, `PlayerCaches` and `PlayerEof` prove what every run keeps, for every interleaving; `Player` is the decode
  thread's state as an object whose handlers make the model's steps in place. `FrameRing` and `FrameBuffers` are the
  lock-free ring of textures between the convert thread and the draw loop.
- **The FTP transfers of `ftp_daemon.c`** (`FtpModel`, `FtpUpload`, `FtpTransfers`, `FtpDaemon`): uploads and downloads of
  all clients at once, through the server thread, the IO thread and their queues.

A run is any sequence of actions. Fields and parameters marked as not in the program (what the user last asked for, what
has been received or shown so far) are history for stating the theorems.

`FirstRow` and the like speak of byte rows, `Stands` of bits standing at a position of a byte string, and a predicate
over `Guard` is kept folded in proofs that only pass it on.

Six places where the code differs from what one expects of it are stated as found, each with a concrete case and the
exact condition:

- A JPEG table with 256 codes whose last has at most nine bits misreads that code, because the number of its symbol
  index, 255, marks a missing fast entry (`MistakenTable`); every window is read right if and only if the table is not
  such a one (`MisreadsExactlyWhen`).
- A change of the audio track sets a paused speaker running (`TrackChangeUnpauses`); the speaker is paused exactly while
  the player does not play if and only if it plays or no such change came since (`SpeakerFollowsPlayback`).
- After an abort the convert queue need not be empty (`ClearOutlivesAbort`); it can only hold requests to clear the cache,
  and one can be left if and only if the decode-video thread has one before it when the convert thread flushes its queue
  (`OnlyClearsLeft`, `OutlivesExactlyWhen`).
- A request to clear that is left in this way can start a seek of the next session before the file has been sought
  (`SeekStartsEarly`); some continuation of a session has such a seek if and only if a request is left when its file is
  opened (`EarlyExactlyWhen`).
- A seek can be overtaken by an old read: a read that is under way when the seek is asked for may still report the end of
  the file, and then nothing more is read after the seek until the next command (`SeekIsOvertaken`, `EndLasts`); that can
  happen if and only if a read is on its way, or such a report unread (`StaleExactlyWhen`).
- An empty upload gets its reply but leaves the file as it was, even without the append flag, and creates none
  (`EmptyUploadKeepsFile`, `EmptyUploadsNotAsAsked`); there is a file as asked if and only if something was received, or
  there was a file that was to be appended to or was empty (`UploadAsAskedExactlyWhen`).

A seventh is a matter of range: the GIF decoder accepts minimum code sizes for which its code width is not the standard one,
and `WidthIsStandardExactlyFor` says which.

`dafny verify dfyconfig.toml` checks the project.

## Model

| member | source | states |
|---|---|---|
| `Bits.BitReverse16IsRev` | library/include/stb_image.h:4117-4124 | the four masked swaps of bit groups reverse all 16 bits |
| `Bits.BitReverseIsRev` | library/include/stb_image.h:4126-4132 | reversing 16 bits and shifting reverses any value of up to 16 bits within its width |
| `Bits.RevVal` | library/include/stb_image.h:4234-4251 | reversing bits read low bit first gives the number that Huffman codes spell high bit first |
| `CanonicalCode.MatchUnique` | library/include/stb_image.h:4134-4179 | for any lengths, no two symbols' canonical codes (section 3.2.2 of RFC 1951) stand at the same place of a bit string: the code is prefix-free |
| `CanonicalCode.CodeBound` | library/include/stb_image.h:4134-4157 | when the Kraft sum of the lengths is at most 1 every canonical code fits its length |
| `CanonicalCode.DecodeIs` | library/include/stb_image.h:4234-4281 | the symbol whose code stands at a position is the one decoded there |
| `CanonicalCode.FindMatchNone` | library/include/stb_image.h:4234-4251 | nothing is decoded exactly when no code stands at a position |
| `ZHuffmanTables.ZHuffman.Build` | library/include/stb_image.h:4134-4179 | succeeds if and only if the Kraft sum is at most 1, and then the ranges, the symbol tables and the fast table all describe the canonical code |
| `ZHuffmanTables.ZHuffman.BuildRanges` | library/include/stb_image.h:4134-4157 | the counting and range loops succeed exactly under the Kraft inequality and leave the code ranges of every length |
| `ZHuffmanTables.ZHuffman.BuildSymbols` | library/include/stb_image.h:4158-4177 | after the symbol loop each length and rank finds its symbol, and each fast entry its code |
| `ZHuffmanTables.ZHuffman.FillFast` | library/include/stb_image.h:4165-4172 | the strided loop fills exactly the 9-bit indices whose low bits are the reversed code |
| `ZHuffmanTables.SlotInjective` | library/include/stb_image.h:4158-4164 | different lengths or ranks never share a slot of the symbol tables |
| `ZHuffmanTables.FastIndices` | library/include/stb_image.h:4165-4172 | an index has the reversed code in its low bits exactly when its own reversal starts with the code |
| `ZHuffmanTables.FastHit` | library/include/stb_image.h:4268-4280 | a non-zero fast entry names the symbol whose code stands next, and its length |
| `ZHuffmanTables.FastMiss` | library/include/stb_image.h:4268-4280 | a zero fast entry means that no code of at most 9 bits stands next |
| `ZHuffmanTables.SlowHit` | library/include/stb_image.h:4234-4251 | the first length whose limit lies above the 16-bit window gives, through the symbol tables, the code that stands there |
| `ZlibDecoder.NothingMatches` | library/include/stb_image.h:4241-4243 | a 16-bit window beyond the limits of all 15 lengths starts with no code |
| `ZlibDecoder.ZBuf.FillBits` | library/include/stb_image.h:4207-4222 | the bit buffer holds the next bits of the input continued by zeros, before and after; it never exceeds its bit count |
| `ZlibDecoder.ZBuf.Receive` | library/include/stb_image.h:4224-4232 | returns the value of the next n bits, low bit first, and moves past them |
| `ZlibDecoder.ZBuf.HuffmanDecode` | library/include/stb_image.h:4253-4281 | fast table and slow path together decode exactly the symbol of the canonical code; they fail only if there is none or the position is past the input |
| `ZlibDecoder.ZBuf.SlowPath` | library/include/stb_image.h:4234-4251 | when no short code stands next, the search over lengths decodes exactly the symbol whose code does, or fails when there is none |
| `ZlibDecoder.ZBuf.Expand` | library/include/stb_image.h:4283-4303 | growing keeps the bytes written and succeeds exactly if the bytes wanted fit the largest block that doubling can reach |
| `ZlibDecoder.ZBuf.NewLimit` | library/include/stb_image.h:4291-4295 | the doubling loop ends with room for the bytes, reaching the same sizes as from the start |
| `ZlibDecoder.CapacityDoubles` | library/include/stb_image.h:4291-4295 | what can be reached is the limit doubled as often as the heap and 32 bits allow, and no more |
| `ZlibDecoder.ZBuf.CopyBack` | library/include/stb_image.h:4353-4363 | a match extends the output as the byte-by-byte copy of the RFC does, overlaps included, exactly if there is room |
| `ZlibDecoder.ZBuf.CopyRun` | library/include/stb_image.h:4358-4360 | the run-of-one-byte shortcut equals the general copy for distance 1 |
| `InflateSpec.CopyMatchRepeats` | library/include/stb_image.h:4357-4363 | a copy keeps the output and makes every new byte equal the byte one distance before it |
| `ZlibDecoder.LengthTable` | library/include/stb_image.h:4305-4311 | the length tables equal the recurrence of section 3.2.5: each code starts where the previous one's values end |
| `ZlibDecoder.DistTable` | library/include/stb_image.h:4313-4317 | the distance tables equal the recurrence of section 3.2.5 |
| `InflateSpec.OrderIsTheTable` | library/include/stb_image.h:4371-4371 | the order of the code length codes is that of section 3.2.7 |
| `ZlibDecoder.ZBuf.ApplySymbol` | library/include/stb_image.h:4319-4367 | one symbol of a block has the effect the pure decoder gives it, or fails with it |
| `ZlibDecoder.ZBuf.ParseHuffmanBlock` | library/include/stb_image.h:4319-4367 | a compressed block ends with the output and position of the pure decoder; failure means that it fails too or has gone past the input |
| `ZlibDecoder.ZBuf.ReadLencodes` | library/include/stb_image.h:4388-4413 | the run-length coded code lengths are those of section 3.2.7 |
| `ZlibDecoder.ZBuf.ComputeHuffmanCodes` | library/include/stb_image.h:4369-4417 | both tables of a dynamic block describe the codes that section 3.2.7 reads at this position |
| `ZlibDecoder.ZBuf.ParseUncompressedBlock` | library/include/stb_image.h:4419-4446 | a stored block starts at the next byte boundary although whole bytes have been buffered, and is copied exactly |
| `ZlibDecoder.FixedKraft` | library/include/stb_image.h:4462-4474 | the fixed code lengths of section 3.2.6 satisfy the Kraft inequality |
| `ZlibDecoder.ZBuf.ParseBlock` | library/include/stb_image.h:4499-4515 | each kind of block is decoded as by the pure decoder |
| `ZlibDecoder.ZBuf.ParseZlibHeader` | library/include/stb_image.h:4448-4460 | accepts exactly the headers of RFC 1950 with method 8, no preset dictionary and check bits that make 256 times the first byte plus the second a multiple of 31, when more input follows |
| `ZlibDecoder.ZBuf.ParseZlib` | library/include/stb_image.h:4491-4518 | main result: on success the output is the pure decode of sections 3.2.3 to 3.2.7 of the input's bits followed by zeros, for every input, buffer and heap; on failure the pure decode fails as well or needs bits past the end |
| `InflateEncode.BlockDecodes` | library/include/stb_image.h:4319-4367 | main result: for any prefix codes, the bits of any tokens decode to what the tokens stand for, and to their end |
| `InflateStreams.RunsDecode` | library/include/stb_image.h:4388-4413 | any run-length coding of code lengths, in any prefix code, is read back as the lengths it stands for |
| `InflateStreams.LensDecode` | library/include/stb_image.h:4371-4386 | the code length code comes back from its lengths sent in the order of section 3.2.7, those not sent being zero |
| `InflateStreams.HeadDecodes` | library/include/stb_image.h:4369-4417 | the head of a block with dynamic codes gives back both codes, and ends where the block's symbols begin |
| `InflateStreams.BlocksDecode` | library/include/stb_image.h:4499-4515 | main result: the bits of any blocks, stored, with fixed or with dynamic codes, decode to what the blocks stand for, one behind the other, and to their end |
| `InflateStreams.RoundTrip` | library/include/stb_image.h:4491-4518 | main result: inflating the zlib stream of any blocks, behind any header that RFC 1950 allows here and whatever follows, gives what they stand for, and ends within the stream |
| `InflateStreams.DataRoundTrip` | library/include/stb_image.h:4491-4518 | any byte string can be sent this way, behind any such header, comes back, and ends within the stream |
| `InflateStreams.InflateStream` | library/include/stb_image.h:4491-4518 | main result: the in-place decoder accepts the stream of any blocks whose data fit, and its output is what they stand for |
| `DeflateFixed.FixedCode` | library/include/stb_image.h:4462-4474 | the length and the value of each code in the table of section 3.2.6: 0x30 on in eight bits, 0x190 on in nine, 0 on in seven and 0xC0 on in eight |
| `DeflateFixed.FixedDistCode` | library/include/stb_image.h:4465-4465 | a fixed distance code is the symbol itself in five bits |
| `DeflateFixed.LengthIsSent` | library/include/stb_image.h:4305-4311 | each length from 3 to 258 is what the decoder's tables give for the symbol and extra bits in which the value ranges of section 3.2.5 send it |
| `DeflateFixed.DistIsSent` | library/include/stb_image.h:4313-4317 | the same for each distance from 1 to 32768 |
| `DeflateFixed.FixedInflates` | library/include/stb_image.h:4462-4515 | main result: a block of bytes and copies in the fixed codes, written bit for bit from the tables of the RFC, inflates to any data in which the copies repeat what lies their distance before |
| `DeflateFixed.BytesInflate` | library/include/stb_image.h:4462-4515 | any bytes, each as its eight or nine literal bits, and seven zeros inflate to those bytes |
| `DeflateFixed.InflateFixed` | library/include/stb_image.h:4491-4518 | main result: the in-place decoder accepts such a stream and its output is those data |
| `InflateSpec.RunLengths` | library/include/stb_image.h:4388-4413 | symbol 16 repeats the last length 3 to 6 times, and is refused without one; 17 stands for 3 to 10 zeros, 18 for 11 to 138 |
| `InflateRefusals.StoredRefusedExactlyWhen` | library/include/stb_image.h:4419-4446 | a stored block is refused if and only if its two lengths, low bytes first, are not complements or its data do not fit |
| `InflateRefusals.CopyRefusedExactlyWhen` | library/include/stb_image.h:4336-4353 | a copy is refused if and only if its length symbol is above 285, its distance symbol above 29, the distance reaches behind the start, or there is no room |
| `InflateRefusals.HeadRefusedExactlyWhen` | library/include/stb_image.h:4369-4417 | any run-length coded lengths behind a usable code length code give codes if and only if they are exactly as many as announced and neither code is over-subscribed |
| `InflateRefusals.LengthCodeRefused` | library/include/stb_image.h:4385-4386 | an over-subscribed code length code is refused |
| `PngDecoder.Paeth` | library/include/stb_image.h:4667-4678 | the threshold formulation equals the Paeth predictor of section 6.6 of RFC 2083 |
| `PngSpec.FirstRow` | library/include/stb_image.h:4658-4665 | on the first row the substituted filter types decode as the asked ones do above a row of zeros |
| `PngSpec.RowIsUnfiltered` | library/include/stb_image.h:4764-4795 | un-filtering gives each byte its meaning in sections 6.2 to 6.6 of RFC 2083, by its neighbours' values |
| `PngDecoder.Unfilter` | library/include/stb_image.h:4764-4795 | each filter type's loop leaves the un-filtered row in its half of the buffer, by bytes: the raw byte, plus left, plus up, plus their average rounded down, or plus the neighbour nearest to left + up - upper left, modulo 256 |
| `PngSpec.RowRoundTrip` | library/include/stb_image.h:4764-4795 | un-filtering a filtered row gives the row back, for every filter type, pixel stride and prior row |
| `PngSpec.ImageRoundTrip` | library/include/stb_image.h:4747-4797 | main result: un-filtering a filtered image gives its rows back for any choice of filter types, whatever data follows |
| `PngDecoder.ExpandBits` | library/include/stb_image.h:4800-4827 | the shifting loops spread exactly the samples of 1, 2 or 4 bits, scaled, and touch nothing else |
| `PngDecoder.ExpandAlpha` | library/include/stb_image.h:4685-4703 | adding an alpha channel in place, backwards, gives each pixel its samples and 255 |
| `PngSpec.LargestIsWhite` | library/include/stb_image.h:4680-4680 | scaling makes the largest sample of every depth 255 |
| `PngSpec.BytesAreSamples` | library/include/stb_image.h:4832-4836 | for 8-bit samples the row is the samples |
| `PngSpec.RowBytesIs` | library/include/stb_image.h:4727-4727 | a row of samples takes as many bytes as its bits need, rounded up |
| `PngSpec.NativeWord` | library/include/stb_image.h:4838-4847 | a 16-bit sample is the number whose high byte comes first |
| `PngDecoder.CreateImageRaw` | library/include/stb_image.h:4706-4869 | main result: for every depth, 16 bits included, with two alternating row buffers and the first-row table: succeeds if and only if the data are long enough and all filter types known; then there are rows whose bytes are un-filtered by those of the row above, zeros above the first, and each byte of each pixel is its packed sample, scaled, or opaque alpha |
| `PngPixels.RowsAreDecoded` | library/include/stb_image.h:4747-4797 | the rows decoded are, byte for byte, those whose un-filtering by the row above the data give, each behind its filter byte |
| `PngPixels.RowsAreRefused` | library/include/stb_image.h:4727-4753 | data are refused only if they are too short or have a filter type above 4 |
| `PngPixels.PixelsShow` | library/include/stb_image.h:4799-4869 | every byte of the image is a sample of its pixel: taken from the high bits down, stretched to 0 to 255 if grey, in the machine's byte order if of 16 bits, or opaque alpha |
| `PngDecoder.ImageMeans` | library/include/stb_image.h:4706-4869 | so what the pure decoding accepts and gives is what the data mean byte for byte |
| `PngDecoder.DecodeFiltered` | library/include/stb_image.h:4706-4869 | main result: through the two row buffers, an image filtered row by row with any filters is accepted and comes back as the pixels of its rows |
| `Adam7.PassSizeIs` | library/include/stb_image.h:4884-4891 | the unsigned pass-size formula never wraps to a wrong size for allowed dimensions |
| `Adam7.PassWidthIs` | library/include/stb_image.h:4890-4890 | a column belongs to a pass exactly if it lies in the image |
| `Adam7.PassHeightIs` | library/include/stb_image.h:4891-4891 | a row belongs to a pass exactly if it lies in the image |
| `Adam7.SpacedIs` | library/include/stb_image.h:4898-4905 | places and sizes of passes are products and quotients by their spacing |
| `Adam7.PassIsBlock` | library/include/stb_image.h:4876-4897 | a pixel's pass, and its column and row there, are those of the eight by eight drawing of section 2.6 of RFC 2083 |
| `Adam7.PassSizesAre` | library/include/stb_image.h:4890-4891 | the numbers of columns and rows of each pass |
| `Adam7.PassesCoverOnce` | library/include/stb_image.h:4883-4905 | main result: for every width and height the seven passes' maps stay in bounds and reach every pixel exactly once (section 2.6 of RFC 2083) |
| `PngInterlace.PixelGoes` | library/include/stb_image.h:4898-4905 | the place a pass gives to its pixel is the one from which the de-interlaced image takes it |
| `PngInterlace.PlacePass` | library/include/stb_image.h:4898-4905 | one pass puts its pixels in place and disturbs no other pass's |
| `PngInterlace.DeinterlacedBytes` | library/include/stb_image.h:4898-4905 | the de-interlaced image, byte for byte, by the drawing of section 2.6 |
| `PngInterlace.CreateImage` | library/include/stb_image.h:4871-4914 | main result: for every depth, succeeds exactly if all passes decode, and then each byte of each pixel is that of the pass, column and row which the drawing of section 2.6 gives; without interlacing, as CreateImageRaw |
| `PngPasses.PixelAt` | library/include/stb_image.h:4800-4869 | every byte of a finished pixel is given by the pixel's samples alone, for every depth, scaled, in native order, and opaque where alpha is added |
| `PngPasses.Together` | library/include/stb_image.h:4883-4905 | an image whose pixels' samples are spread over the seven passes is put together again |
| `PngPasses.PassesBack` | library/include/stb_image.h:4883-4910 | the filtered rows of the passes, one pass after the other, decode to the images of the passes, whatever filters they use and whatever follows |
| `PngPasses.DecodeInterlaced` | library/include/stb_image.h:4871-4914 | main result: an image spread over the passes, each filtered row by row with any filters, is accepted and comes back as the very image that would have been sent without interlacing, for every depth and size |
| `Context.Source.Get8` | library/include/stb_image.h:1624-1633 | reads the next byte, or zero past the end |
| `Context.Source.Skip` | library/include/stb_image.h:1654-1670 | skips bytes of the input |
| `GifDecoder.NextByte` | library/include/stb_image.h:6735-6737 | or-ing a byte above the buffered bits appends its bits |
| `GifDecoder.Gif.ReadByte` | library/include/stb_image.h:6729-6737 | the buffered bits stay the data sub-blocks' bits, block boundaries removed; no byte is left exactly when the terminator comes |
| `GifDecoder.Gif.InitCodes` | library/include/stb_image.h:6717-6725 | the table stands for the fresh dictionary |
| `GifDecoder.Gif.AddEntry` | library/include/stb_image.h:6760-6767 | a new entry expands to the old string followed by the first symbol of the new one, the code that is just being added included |
| `GifDecoder.EntryAdded` | library/include/stb_image.h:6765-6767 | prefix links stay below their entry, first stays the head of the expansion, and the table still stands for the dictionary |
| `GifDecoder.Gif.OutGifCode` | library/include/stb_image.h:6664-6699 | the recursion over prefixes ends, and draws exactly the code's string, in order |
| `GifDecoder.Gif.StringCode` | library/include/stb_image.h:6754-6778 | a code for a string is accepted, extends the dictionary and the picture, or is refused, as by the dictionary decoder |
| `GifDecoder.Gif.TakeCode` | library/include/stb_image.h:6739-6781 | every kind of code has the effect that Appendix F of GIF89a gives it |
| `GifSpec.WidthIsStandardExactlyFor` | library/include/stb_image.h:6773-6776 | the code width is the standard one after all accepted codes, as wide as the next free code needs, if and only if the minimum code size, up to 12 in the code, is from 2 to 11 |
| `GifSpec.RefusedExactlyWhen` | library/include/stb_image.h:6754-6771 | a code is refused if and only if it is beyond the next free one, no clear code has come, the next free one comes first after a clear code, or all 8192 codes are assigned; and with which error |
| `GifScan.VisitsDistinct` | library/include/stb_image.h:6687-6698 | no pixel of a frame is visited twice, interlaced or not |
| `GifScan.EveryPixelVisited` | library/include/stb_image.h:6687-6698 | every pixel of a frame is visited |
| `GifScan.TargetsDistinct` | library/include/stb_image.h:6676-6686 | different visits draw at different places of the picture |
| `GifScan.TargetsCover` | library/include/stb_image.h:6676-6686 | the visits reach every place of the frame's rectangle |
| `GifScan.VisitedPixel` | library/include/stb_image.h:6676-6686 | a visited pixel shows its index's colour and is marked, or keeps its colour if that is transparent |
| `GifScan.UnvisitedPixel` | library/include/stb_image.h:6664-6699 | no other pixel changes |
| `GifScan.PutAllIsCanvas` | library/include/stb_image.h:6664-6699 | drawing symbol by symbol gives the frame's canvas |
| `GifOrder.RankOrders` | library/include/stb_image.h:6687-6698 | of an interlaced frame, the rows come in four passes, those divisible by 8, by 8 with remainder 4, by 4 with remainder 2, and the odd ones, each from the top down |
| `GifOrder.VisitRank` | library/include/stb_image.h:6687-6698 | the pixel visited as number k has exactly k pixels before it: those of the rows before its own in that order, and those left of it |
| `GifOrder.VisitedInOrder` | library/include/stb_image.h:6687-6698 | the pixel of a row and column has the number that the row's place in the order and the column give |
| `GifOrder.InPlainOrder` | library/include/stb_image.h:6687-6698 | without interlacing, pixel k is in row k / w and column k % w |
| `GifOrder.CanvasShows` | library/include/stb_image.h:6664-6699 | so the canvas shows, in each row and column of the frame, the colour of the index with that number, in the order R, G, B, A, unless it is transparent or missing; all else is kept |
| `GifDecoder.Gif.ProcessRaster` | library/include/stb_image.h:6701-6784 | main result: the picture is drawn from exactly the decoded pixel indices, up to an error if there is one; on success the input stands behind the image data |
| `GifDecoder.Gif.LoadFrame` | library/include/stb_image.h:6861-6901 | main result: a frame set up from its descriptor leaves the canvas of the indices decoded, up to the error if there is one: by rows and columns, each pixel of the screen shows the colour of its index or is kept; a minimum code size above 12 changes nothing |
| `GifEncode.LongestIsLongest` | library/include/stb_image.h:6759-6778 | the encoder's code stands for the longest string of the dictionary |
| `GifEncode.CodesPlay` | library/include/stb_image.h:6739-6781 | for every minimum code size with the standard width: each code of any pixels, the clear and end codes included, is sent at exactly the width that the decoder has reached then, though the encoder takes it from its own dictionary, which is a string ahead; and a decoder that is at most one string behind draws the pixels |
| `GifEncode.BehindWidth` | library/include/stb_image.h:6773-6776 | a decoder that is one string behind has the width of the last code of the encoder's dictionary |
| `GifPack.RoundTrip` | library/include/stb_image.h:6701-6784 | main result: decoding what the encoder of Appendix F makes of any pixels gives them back, for every minimum code size with the standard width; the encoder's own code widths, clear codes and bit packing included |
| `GifImage.BlocksRead` | library/include/stb_image.h:6729-6737 | data split into any sub-blocks are read back, and reading ends behind the terminator |
| `GifImage.DrawEncoded` | library/include/stb_image.h:6861-6901 | main result: a frame of any pixels, encoded as Appendix F says, in any sub-blocks, interlaced or not, is accepted, the input stands behind it, and the screen shows the pixels in their rows and columns |
| `JpegSpec.PrefixFree` | library/include/stb_image.h:2026-2040 | the codes of Annex C of ITU-T T.81 are prefix-free |
| `JpegSpec.CodeIsWindows` | library/include/stb_image.h:2026-2040 | each code, at the top of 16 bits, is the number of windows that start with the codes before it |
| `JpegHuffmanTables.Huffman.BuildSizes` | library/include/stb_image.h:2017-2024 | fails exactly if there are more than 256 codes |
| `JpegHuffmanTables.Huffman.BuildCodes` | library/include/stb_image.h:2026-2041 | fails exactly if the codes do not fit their lengths; otherwise every symbol has its canonical code |
| `JpegHuffmanTables.Huffman.Build` | library/include/stb_image.h:2013-2056 | succeeds if and only if there are at most 256 codes and they fit, and then all tables describe the code |
| `JpegHuffmanTables.Huffman.FindSymbol` | library/include/stb_image.h:2107-2155 | finds the decoded symbol and its length for every window and accepted table, or none; a mistaken window, one that starts with a code of at most nine bits of symbol 255, is read as the symbol that lies as far before 256 as its ten bits lie before the first ten-bit code |
| `JpegHuffmanTables.MisreadsExactlyWhen` | library/include/stb_image.h:2043-2056 | main result: the program reads every 16-bit window as Annex C says if and only if the table has no symbol 255 or a longer code than nine bits for it |
| `JpegHuffmanTables.IrregularWindow` | library/include/stb_image.h:2043-2054 | every other accepted table has a mistaken window |
| `JpegHuffmanTables.MistakenTable` | library/include/stb_image.h:3134-3150 | counts that a table segment can carry, 255 codes of eight bits and one of nine, are accepted, and the window 0xFF00 is read as symbol 254 in ten bits instead of 255 in nine |
| `JpegSpec.RegularBlock` | library/include/stb_image.h:2239-2271 | with the other tables, a block as the program reads it is the block of T.81 |
| `JpegDecoder.Jpeg.GrowBuffer` | library/include/stb_image.h:2085-2101 | the buffer holds the next bits of the scan with stuffed and fill bytes removed, and stops at a marker; once that is met, or if there is none, it fills up with zeros |
| `JpegDecoder.Jpeg.HuffDecode` | library/include/stb_image.h:2107-2156 | for every accepted table, decodes the value of the next symbol as read, or fails if there is none; for lack of bits only if the symbol ends behind the data and the marker there is still to be met |
| `JpegDecoder.Jpeg.ExtendReceive` | library/include/stb_image.h:2163-2176 | shifting the bits out and subtracting for a leading zero gives the extended value of the next bits |
| `JpegDecoder.BuildFastAc` | library/include/stb_image.h:2060-2083 | every entry of the table is what its window's short code and magnitude give, or zero |
| `JpegDecoder.SmallCoefficient` | library/include/stb_image.h:2060-2083 | main result: a non-zero entry stands for the same run, value and number of bits as Huffman decoding and extending |
| `JpegDecoder.Jpeg.FastAc` | library/include/stb_image.h:2245-2255 | the fast path takes the next coefficient as the pure decoder does |
| `JpegDecoder.Jpeg.SlowAc` | library/include/stb_image.h:2256-2269 | for every accepted table, the slow path takes the next coefficient as the pure decoder does |
| `JpegDecoder.Jpeg.DecodeAcBlock` | library/include/stb_image.h:2239-2271 | main result: with both paths mixed and for every accepted table, the coefficients, dequantized and cut to 16 bits, and the position are those of the pure decoder with the program's reading of symbols, and with a regular table those of T.81; coefficient k lies in the row and column that the zigzag walk reaches in k steps; blocks behind the data included, which are of zeros, but for the one in which the marker is met |
| `JpegOrder.Walk` | library/include/stb_image.h:2202-2217 | the zigzag starts in the corner and goes up and right from an even place, down and left from an odd one, and along the edge where that would leave the block |
| `JpegOrder.PlacesDiffer` | library/include/stb_image.h:2202-2217 | no two coefficients share a place |
| `JpegOrder.PlaceOfNumber` | library/include/stb_image.h:2202-2217 | each row and column is the place of the coefficient with the number that its diagonal and direction give |
| `JpegOrder.WholeBlockIsLaid` | library/include/stb_image.h:2239-2271 | the values read in zigzag order lie dequantized at those places, and all other places are kept |
| `JpegEncode.SymbolStands` | library/include/stb_image.h:2256-2269 | a run/size symbol and the bits of a value, as section F.1.2.2 of T.81 sends them, are read as that run and value |
| `JpegEncode.SymbolCut` | library/include/stb_image.h:2163-2176 | a value whose bits end behind the data is refused |
| `JpegEncode.CoefsStand` | library/include/stb_image.h:2239-2271 | the run/size symbols of any coefficients, sixteen zeros at a time and the end of block included, are read back as those coefficients |
| `JpegEncode.StuffedBack` | library/include/stb_image.h:2085-2101 | data sent with a zero behind each 0xFF, and fill bytes, come back, and a marker is found exactly if one follows |
| `JpegEncode.DecodeSent` | library/include/stb_image.h:2239-2271 | main result: the AC coefficients of any block that the table has symbols for, encoded, stuffed and in front of a marker or nothing, are accepted and lie dequantized in their rows and columns |
| `JsmnNesting.OpenTokensAreTheStack` | library/include/jsmn.h:275-453 | main result: at every loop head the open tokens, in index order, are the stack of unclosed brackets that an independent scanner keeps |
| `JsmnNesting.RunIsJudged` | library/include/jsmn.h:268-453 | success means well-matched brackets, and each error other than lack of tokens is the scanner's |
| `JsmnNesting.SucceedsExactlyWhen` | library/include/jsmn.h:268-453 | main result: a parse succeeds if and only if the scanner accepts the text and there are as many tokens as the sizing pass counts |
| `JsmnNesting.TokenRanges` | library/include/jsmn.h:268-453 | main result: on success all tokens have closed ranges in the text that begin and end as their kind does, ordered by start, and any two are nested or disjoint |
| `JsmnSpec.Resume` | library/include/jsmn.h:106-119 | main result: after lack of tokens, going on with more of them gives the same tokens, state and result as starting with more |
| `JsmnSpec.SizingAgrees` | library/include/jsmn.h:273-286 | main result: the sizing pass counts the tokens of every parse that succeeds |
| `JsmnSpec.SizingSuffices` | library/include/jsmn.h:273-286 | main result: with as many tokens as a sizing pass counted a parse never runs out |
| `JsmnSpec.StepCounts` | library/include/jsmn.h:279-440 | each character moves the sizing pass as it moves the parse |
| `JsmnSpec.StepAdvances` | library/include/jsmn.h:275-441 | each character is consumed, adds at most one token, and leaves a valid state |
| `Jsmn.JsmnParser.AllocToken` | library/include/jsmn.h:106-119 | takes the next token exactly if one is left, and resets it alone |
| `Jsmn.JsmnParser.FillToken` | library/include/jsmn.h:124-130 | appends the token, or reports that none is left |
| `Jsmn.JsmnParser.FindQuote` | library/include/jsmn.h:198-262 | scans a string with its escapes to its end, or to the error, as the pure scan does |
| `Jsmn.JsmnParser.ParseString` | library/include/jsmn.h:193-263 | records the string, or undoes the position on an error |
| `Jsmn.JsmnParser.ParsePrimitive` | library/include/jsmn.h:135-188 | records the primitive, or undoes the position on an error |
| `Jsmn.JsmnParser.OpenBracketToken` | library/include/jsmn.h:281-307 | opens a token and makes it the superior one |
| `Jsmn.JsmnParser.CloseBracketToken` | library/include/jsmn.h:308-360 | the two backward loops close the last open token of the same kind and find the next one |
| `Jsmn.JsmnParser.CommaToken` | library/include/jsmn.h:379-396 | after a comma the superior token is the enclosing open one, as the pure step says, whose meaning JsmnSizes.TextTokens pins |
| `Jsmn.JsmnParser.CountCharacter` | library/include/jsmn.h:275-441 | the sizing pass's step |
| `Jsmn.JsmnParser.Parse` | library/include/jsmn.h:268-453 | the in-place parser gives the result, tokens and state of the pure run, or the sizing count, and touches no token beyond; what the run gives for a text is JsmnSizes.TextTokens |
| `Jsmn.JsmnParser.constructor` | library/include/jsmn.h:459-463 | a parser starts at the beginning with no tokens |
| `JsmnSizes.ValueGoes` | library/include/jsmn.h:275-441 | from any state, the text of a value adds its tokens and makes the enclosing token one larger |
| `JsmnSizes.TextTokens` | library/include/jsmn.h:268-453 | main result: the text of any JSON value, with any blanks, is parsed to the value's tokens in preorder, each with its range and with the number of members of an object or of elements of an array, 1 for a key and 0 for any other |
| `JsmnSizes.TextLacksTokens` | library/include/jsmn.h:106-119 | with fewer tokens the parse fails for lack of them |
| `JsmnSizes.ParseText` | library/include/jsmn.h:268-463 | main result: in place, a new parser returns the number of the value's tokens and leaves exactly these in the array, or reports that there are too few |
| `JsmnSizes.StringExactly` | library/include/jsmn.h:193-263 | a string is found up to a quote if and only if what lies before it is any characters but zero, quote and backslash, and escapes, those for code points with four hexadecimal digits |
| `JsmnSizes.PrimitiveExactly` | library/include/jsmn.h:135-188 | a primitive goes up to what ends it if it has only visible characters and spaces of ASCII |
| `PlayerInvariants.OnlyDecodeWrites` | source/video_player.c:5990-6800 | no thread but the decode thread changes the player's state |
| `PlayerInvariants.PlaybackAlways` | source/video_player.c:5084-5530 | in every run, changes of the audio track included, state, sub-state, speaker and seek counters keep the player's invariant |
| `PlayerInvariants.IntentIsTheUsers` | source/video_player.c:5084-5130 | nothing but a handled play, pause or resume request changes what the user asked for |
| `PlayerRuns.PlaybackFollowsTheUser` | source/video_player.c:5025-5530 | main result: in every run, with a file open, the player plays or will resume exactly if the last handled play, pause or resume request asked for it; RESUME_LATER is set only while buffering or seeking; while it plays the speaker is not paused |
| `PlayerRuns.SpeakerPausedWhen` | source/video_player.c:5174-5198 | main result: in every run, an open speaker is paused exactly if the player does not play and the audio track has not been changed since the speaker was last opened, paused or resumed |
| `PlayerRuns.SpeakerFollowsPlayback` | source/video_player.c:5174-5198 | so the speaker is paused exactly while the player does not play if and only if the player plays or the track has not been changed since |
| `PlayerRuns.TrackChangeUnpauses` | source/video_player.c:5189-5190 | a run in which a paused player whose audio track is changed has its speaker running |
| `PlayerRuns.RequestsConserved` | source/video_player.c:5418-5459 | main result: in every run each request to read or decode is queued, being served, or answered by one unread notice, exactly while its flag is set |
| `PlayerRuns.RequestsFindAFile` | source/video_player.c:6684-6690 | no queued request to read, seek, decode or clear ever finds the file closed |
| `PlayerMessages.ReadKept` | source/video_player.c:6684-6781 | every step keeps the accounting of read requests and abort notices |
| `PlayerVideo.VideoKept` | source/video_player.c:5990-6242 | every step keeps the accounting of video packets and abort notices |
| `PlayerConvert.ConvertKept` | source/video_player.c:6286-6348 | every step keeps the convert thread still while it has been told to abort |
| `PlayerRuns.AbortQuiesces` | source/video_player.c:5263-5291 | main result: once the three abort notices are in, the read-packet and decode-video threads are idle with empty queues, and the convert thread converts nothing |
| `PlayerRuns.NothingConverted` | source/video_player.c:6323-6348 | whatever the threads do then, no picture is converted before the next play request |
| `PlayerAborts.OnlyClearsLeft` | source/video_player.c:6323-6348 | main result: in every run, all that the convert queue holds without a file is requests to clear the cache |
| `PlayerAborts.OutlivesExactlyWhen` | source/video_player.c:6196-6202 | main result: when the convert thread flushes its queue for an abort, some continuation without a play request leaves such a request in the closed player's queue if and only if a request to clear is then queued for the decode-video thread or being carried out |
| `PlayerAborts.ClearOutlivesAbort` | source/video_player.c:6196-6202 | a run in which that happens |
| `PlayerSeeks.StartsWhenSought` | source/video_player.c:5425-5528 | main result: in every run, in a session that was opened with no request to clear left over, a seek starts only when the file has been sought for it |
| `PlayerSeeks.EarlyExactlyWhen` | source/video_player.c:5425-5528 | main result: when a file is opened, some way of going on without an abort starts a seek before the file has been sought for it if and only if a request to clear, or its notice, is left that counts for this file |
| `PlayerSeeks.SeekStartsEarly` | source/video_player.c:5510-5528 | a run in which that happens |
| `PlayerCaches.StartsWhenCleared` | source/video_player.c:5425-5528 | main result: in such a session with video, a seek starts only when the file has been sought for it, then the decode-video thread, then the convert thread have cleared their caches |
| `PlayerEof.FlagIs` | source/video_player.c:5164-5416 | in every run the end-of-file flag is set exactly if a notice of the end has been handled since the last file was opened and the last seek was asked for |
| `PlayerEof.StaleExactlyWhen` | source/video_player.c:5126-5172 | main result: when a seek is asked for, some way of going on, without another command, has the end of the file reported before the file has been sought if and only if a read is on its way or such a notice unread |
| `PlayerEof.EndLasts` | source/video_player.c:5600-5600 | then the flag stays, and no read is asked for, until the next command |
| `PlayerEof.SeekIsOvertaken` | source/video_player.c:5126-5172 | a run in which that happens |
| `PlayerInvariants.SeekWaitEnds` | source/video_player.c:5744-5777 | main result: in every run the backward wait is over after the ignored packets, one for each frame thread, the timeout and one |
| `PlayerInvariants.SeekCompletes` | source/video_player.c:5721-5777 | a seek counts each packet it looks at, and ends only at one of them, with the wait over and the position at or past the target |
| `PlayerThreads.Player.PlayRequested` | source/video_player.c:4684-5072 | without a file: keeps the invariant; a session is open then, playing or to play after buffering, an open speaker is paused exactly in the latter case, and neither the end of the file nor a backward wait of an earlier file is left; makes the model's step |
| `PlayerThreads.Player.PauseRequested` | source/video_player.c:5084-5103 | keeps the invariant; with a file, whatever the player was doing, it neither plays nor will resume, and one that played has its speaker paused; buffering and seeking go on untouched; makes the model's step |
| `PlayerThreads.Player.ResumeRequested` | source/video_player.c:5105-5124 | keeps the invariant; with a file, whatever the player was doing, it plays, with the speaker running, or will resume; buffering and seeking go on untouched; makes the model's step |
| `PlayerThreads.Player.AudioTrackRequested` | source/video_player.c:5174-5198 | keeps the invariant; an effective change leaves an open speaker running in whatever state the player is, and changes nothing else; makes the model's step |
| `PlayerThreads.Player.SeekRequested` | source/video_player.c:5126-5172 | keeps the invariant; unless a seek is being prepared already: whether the player will play afterwards is kept, one that played has its speaker paused, it waits to go back exactly if the target lies behind, and the end of the file is forgotten; makes the model's step |
| `PlayerThreads.Player.PlaybackAborted` | source/video_player.c:5293-5376 | keeps the invariant; the file and speaker are closed, and nothing is left to play, resume or wait for; makes the model's step |
| `PlayerThreads.Player.BeginSeeking` | source/video_player.c:5510-5528 | keeps the invariant; the seek begins with 5 packets to ignore, one more for each frame thread, and 20 to wait for |
| `PlayerThreads.Player.SeekFinished` | source/video_player.c:5425-5453 | keeps the invariant; without video tracks the seek begins, otherwise the caches are to be cleared first; makes the model's step |
| `PlayerThreads.Player.CachesCleared` | source/video_player.c:5510-5530 | keeps the invariant; exactly a seek that is being prepared begins; makes the model's step |
| `PlayerThreads.Player.BufferingFinished` | source/video_player.c:5461-5483 | keeps the invariant; a player that was buffering plays or pauses as was last asked for, with nothing left to resume; makes the model's step |
| `PlayerThreads.Player.OutOfBuffer` | source/video_player.c:5486-5508 | keeps the invariant; a player that played or paused buffers unless the file has ended, keeps in mind exactly whether it played, and its speaker is paused then; makes the model's step |
| `PlayerThreads.Player.SeekOver` | source/video_player.c:5721-5777 | keeps the invariant; the seek ends exactly if the position is at or past the target and no backward wait is left, then goes on as was last asked for, and the wait is over at the latest when all packets to be ignored or waited for, and one more, have been counted |
| `PlayerThreads.Player.PacketArrives` | source/video_player.c:5721-5777 | keeps the invariant; a seek counts video packets, or all if there are no normal videos, and nothing else changes; makes the model's step |
| `FrameRing.HealthIs` | source/video_player.c:1797-1800 | the indices tell how many pictures lie between them |
| `FrameRing.OccupancyBounded` | source/video_player.c:6504-6527 | main result: in every interleaving at most VIDEO_BUFFERS - 1 pictures are ready, and the indices tell how many |
| `FrameRing.FillsElsewhere` | source/video_player.c:6566-6576 | main result: the texture being filled is never the one on the screen |
| `FrameRing.ShownInOrder` | source/video_player.c:1779-1866 | main result: with the store index read twice by the draw loop, the pictures shown are a prefix of those stored, in order, and the one on the screen is intact |
| `FrameRing.StoresWhatIsFilled` | source/video_player.c:6566-6613 | the picture published is the one that the texture was filled with, whatever the draw loop does in between |
| `FrameRing.SeenIsReady` | source/video_player.c:1797-1800 | between the two reads the store index may wrap and the 8-bit count come out far too large, but it is positive exactly if a picture is ready |
| `FrameTextures.FrameBuffers.HasRoom` | source/video_player.c:6505-6527 | room is granted on the indices read earlier exactly if fewer than three pictures lay between them, and the ring invariant is kept although the draw index may have moved on |
| `FrameTextures.FrameBuffers.SetData` | source/video_player.c:6566-6576 | only the texture at the store index changes, and the pictures waiting and shown stay intact |
| `FrameTextures.FrameBuffers.StoreNext` | source/video_player.c:6602-6613 | one more picture is ready, and the store index stays the count of stored pictures modulo the ring |
| `FrameTextures.FrameBuffers.AssignPreviousFrame` | source/video_player.c:1779-1786 | the texture taken first holds the picture shown last |
| `FrameTextures.FrameBuffers.CheckHealth` | source/video_player.c:1797-1800 | after the comparison was made on an earlier read, the count is positive exactly if a picture is ready |
| `FrameTextures.FrameBuffers.ShowNext` | source/video_player.c:1810-1858 | the next stored picture is shown exactly if one was seen to be ready |
| `FrameTextures.FrameBuffers.DrawNext` | source/video_player.c:1860-1863 | the draw index stays the count of shown pictures modulo the ring |
| `FtpUpload.ReceivedKeeps` | source/ftp_daemon.c:1889-1977 | receiving keeps the bytes received equal to the writes' and the buffer's, and the buffer never full |
| `FtpUpload.WritesMakeFile` | source/ftp_daemon.c:2777-2792 | any number of an upload's writes make the file what their payload makes of it |
| `FtpUpload.UploadMakesFile` | source/ftp_daemon.c:1889-1977 | all writes together make the final file, in one write for each full buffer and one more |
| `FtpTransfers.UploadConserves` | source/ftp_daemon.c:1889-1977 | main result: in every run of all clients, bytes received are those written, queued and buffered; only the first write has the command's append flag, only the last is the end |
| `FtpTransfers.UploadCompletes` | source/ftp_daemon.c:2316-2346 | main result: at the reply a non-empty upload's file is the old content if appending, then the data received; after an empty one it is as it was, or is still not there |
| `FtpTransfers.UploadIsAsTold` | source/ftp_daemon.c:1889-1977 | these are the append flag, the old file and the data of the client's last upload in the run |
| `FtpTransfers.UploadAsAskedExactlyWhen` | source/ftp_daemon.c:2777-2827 | so there is a file with what the command asked for if and only if something was received, or there was a file that was to be appended to or was empty |
| `FtpTransfers.EmptyUploadKeepsFile` | source/ftp_daemon.c:2777-2827 | from every start, a run in which a client stores or appends nothing, gets its reply, and has the file it had, or none |
| `FtpTransfers.EmptyUploadsNotAsAsked` | source/ftp_daemon.c:2777-2827 | that is not what was asked for over a file with something in it, and, stored or appended, under a name that does not exist |
| `FtpTransfers.DownloadConserves` | source/ftp_daemon.c:2634-2700 | main result: a place's offset is the number of bytes sent and on their way, which are the file's |
| `FtpTransfers.DownloadCompletes` | source/ftp_daemon.c:2298-2342 | main result: at the reply the client has the file, in floor(length / IO_BUFFER_SIZE) + 1 pieces; no download of a file that exists when it is asked for fails |
| `FtpTransfers.AlwaysASlot` | source/ftp_daemon.c:2702-2733 | with as many places as clients a read request always finds one |
| `FtpTransfers.Keeps` | source/ftp_daemon.c:2298-2346 | every step of either thread keeps each client's transfer apart and accounted for |
| `FtpDaemon.StoreClient.ReceiveData` | source/ftp_daemon.c:1896-1910 | data goes behind what the buffer holds |
| `FtpDaemon.Daemon.ProcessStoreData` | source/ftp_daemon.c:1889-1977 | the in-place buffer, the flags and the queue change as the model's upload does |
| `FtpDaemon.Daemon.ProcessRead` | source/ftp_daemon.c:2634-2700 | one pass over the table loads the next piece for every place in use |
| `FtpDaemon.PassIsARun` | source/ftp_daemon.c:2634-2700 | a pass over the table is a run of the model |
| `FtpDaemon.Daemon.ProcessCmdRead` | source/ftp_daemon.c:2702-2775 | the search loop takes the first free place, or tells the server thread |
| `FtpDaemon.Daemon.ProcessCmdWrite` | source/ftp_daemon.c:2777-2827 | a buffer is saved by its flag, which creates the file if there is none; an empty one is not; the last one is answered |

## Left out

- Foreign parts: user interface, drawing, menus, HID macros, settings, FFmpeg, MVD and Y2R, sockets, the file system and curl. Their results are parameters of the model's steps.
- SIMD kernels and floating point: HDR, gamma, colour conversion, IDCT.
- Image formats BMP, TGA, PSD, PIC and PNM; PNG chunks, palettes, transparency, CRC; Adler-32, which the code does not check.
- ZlibDecoder.ZBuf.ParseZlib: allocation is modelled by a bound on the largest block; up to 288 literal lengths are accepted, as by the code, where RFC 1951 allows 286. On failure the contract allows the pure decode to succeed if it ends past the input.
- ZHuffmanTables.ZHuffman.Build: the tables are sequence fields that the methods reassign, not arrays inside a struct; aliasing between them is not modelled.
- PngDecoder.CreateImageRaw: allocation failure and the overflow checks on sizes are not modelled.
- PngInterlace.CreateImage: takes dimensions of at most 2^24, which the header check enforces before.
- GifDecoder.Gif.ProcessRaster: the table may grow to 8192 entries, as in the code, where Appendix F stops at 4096; the encoder of the round trip sends a clear code at 4096.
- GifDecoder.Gif.LoadFrame: colour tables, extensions, disposal and the background fill are not modelled; the caller's descriptor check is a requirement.
- GifPack.RoundTrip: for minimum code sizes 2 to 11; with 0, 1 and 12, which the code accepts too, its code width is from the start not the one of GIF89a, as GifSpec.WidthIsStandardExactlyFor says, so that an encoder that follows the standard is out of step with it.
- JpegDecoder.Jpeg.HuffDecode: the model is the program with its assertions switched off; with them on, STBI_ASSERT (library/include/stb_image.h:2150) stops it at a mistaken window that it reads as another symbol than 255.
- JpegDecoder.Jpeg.DecodeAcBlock: DC prediction, progressive scans and restarts are not modelled. The block whose bits run past the data to a marker that is met only then is not constrained: what the program makes of it depends on how many bits its buffer held, and the two paths differ there.
- Jsmn.JsmnParser.Parse: the default build only; offsets are unbounded where the code has 32 bits; tokens are values in an array.
- PlayerModel: the queues never overflow, as QUEUE_OP_TIMEOUT_US is assumed to suffice. A play request with a file open, which queues an abort and itself again, is modelled as leaving the state alone, since any later command may follow.
- PlayerModel: the effect of setting an open speaker up, at a play request or a change of the audio track (source/system/util/speaker.c:68), is taken to be that it is not paused; changes of the subtitle track, whose handler leaves the modelled state alone, are left out; the seek target may change at any time.
- PlayerThreads.Player: the class holds the decode thread's own state and has its handlers in place. The queues, the loops around the handlers, the waits for abort notices, the flush loops and the other threads are steps on values in PlayerModel, which do not capture the order of reads inside a step.
- PlayerThreads.Player.PlayRequested: for a closed player; with a file open the handler queues an abort and the request again, as said of PlayerModel above.
- FrameRing: one track of one session; resetting the indices for a new file, done while the convert thread is still, is left out, and so is the draw loop's rule for several tracks. Each read of an index is a step of its own.
- FtpTransfers.UploadCompletes: failing file operations, full queues, and clients that disconnect during a transfer are left out.
- FtpTransfers.DownloadCompletes: the file does not change during the download, and a client transfers one file of its own, which may not exist, at a time.
- FtpDaemon.Daemon.ProcessRead: replies, client records and file names are left out.
