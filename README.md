# LuckP_D1 thermal printer driver and webhook printer, modelled in Dafny

The repository is a Rust driver for the "LuckP_D1" Bluetooth Low Energy
thermal printer, plus a small web server. The server prints GitHub webhook
events (new issues, new comments, the set-up ping) on that printer. This
project models the core of both parts. Each file below is one Dafny module.

- `wrappers.dfy` (`Wrappers`): `Option` and `Result`.
- `strings.dfy` (`Strings`): `repeat`, `format!("{:0<n}")` right padding and `str::contains`.
- `hex.dfy` (`Hex`):
  - uppercase hex formatting (`format!("{:X}")`);
  - pairwise hex decoding, which is what `decode_hex` is used for.
- `imagebuf.dfy` (`ImageBuf`): a raster of pixel rows and its row-major flattening.
- `instruction.dfy` (`Instruction`):
  - the printer's constants: its name, its width, the GATT characteristic UUIDs and the command table;
  - `to_hex`, which turns a spaced hex string into bytes.
- `dither.dfy` (`Dither`):
  - `DitherApply::make_image_hex_str`, which packs a grey image into an uppercase hex text;
  - the `to_hex` nibble table.
- `printer.dfy` (`Printer`):
  - the driver: `find_printer`, `init_printer` and its setup writes;
  - `_call_printer`, which frames the hex text into a header frame, 256-digit chunks and a stop command;
  - the Bluetooth link is a `Link` object. It records every write and asks an outcome oracle whether each write succeeds.
- `server.dfy` (`Server`):
  - the webhook server's start-up, its event routing and `truncate`;
  - its own `call_printer`, which frames exactly as the driver does but without the wake write.
- `printer_image.dfy` (`PrinterImage`): `prep_image_data` and `create_printer_command`. These build the raster message list of the "GS v 0" protocol.
- `image.dfy` (`Image`):
  - the text layout of `generate_image`: the rule line, the trailing spaces and line wrapping by character weight;
  - `v_concat`, which stacks images in a buffer.

How errors are modelled:
- A Rust `?` becomes a plan of writes that stops at the first rejected one.
- A panic (`unwrap`, `expect`, `panic!`, an out-of-range slice) becomes `Err(Panic)`. In the server it is `Reply.Panicked`.

## Model

| member | source | states |
|---|---|---|
| Strings.Repeat | src/dither.rs:28 | `"0".repeat(n)` has n elements, each the repeated one |
| Strings.RepeatStr | src/instruction.rs:27 | `s.repeat(n)` has n times the length of s, and character i is character i mod the length of s |
| Strings.Contains | src/printer.rs:176 | `str::contains`: tries the pattern at each start position, left to right |
| Strings.PadRight | src/printer.rs:142-145 | `{:0<n}` keeps the text as its prefix, fills with '0' after it, and reaches n characters unless the text is already longer |
| Strings.ContainsAt | src/printer.rs:176 | `contains` holds exactly when the pattern occurs at some position |
| Hex.UpperHex | src/printer.rs:131 | `{:X}` formatting: non-empty uppercase hex digits that denote n, with no leading zero |
| Hex.UpperHexLength | src/printer.rs:131 | a number below 16^k formats in at most k digits |
| Hex.DigitChar | src/dither.rs:44-65 | each value below 16 has an uppercase digit that denotes it |
| Hex.DecodeHex | src/printer.rs:149 | pairwise decoding, high digit first; `None` for an odd length or a non-hex digit |
| Hex.DecodeWellFormed | src/printer.rs:149 | an even-length hex text decodes; byte k is 16 times digit 2k plus digit 2k+1 |
| Hex.DecodeAppend | src/printer.rs:146-161 | decoding two texts joined gives the two decodings joined, when the first has even length |
| Hex.DecodeZeroDigits | src/instruction.rs:27 | 2n '0' digits decode to n zero bytes |
| Hex.UpperHexTwoDigits | src/printer.rs:131-140 | a count from 16 to 255 formats in two digits, high digit first |
| Hex.UpperHexThreeDigits | src/printer.rs:131-140 | a count from 256 to 4095 formats in three digits: the top digit is count / 256, the other two are count % 256 |
| ImageBuf.FlattenLength | src/dither.rs:20-25 | h rows of width w flatten to w*h samples |
| ImageBuf.FlattenIndex | src/dither.rs:20-25 | row-major order: pixel (x, y) is sample y*w + x |
| Instruction.UuidFromU16 | src/instruction.rs:12-14 | `uuid_from_u16`: the short UUID sits above the 96 low bits of the Bluetooth base UUID |
| Instruction.UuidFromU16Injective | src/instruction.rs:12-14 | different short UUIDs give different UUIDs |
| Instruction.UuidsDistinct | src/instruction.rs:12-14 | the write characteristic and the two read characteristics have distinct UUIDs |
| Instruction.StripSpaces | src/instruction.rs:36 | `replace(' ', "")`: drops every space and keeps the other characters in order |
| Instruction.ToHex | src/instruction.rs:34-38 | `EnhanceString::to_hex`: strip the spaces, then decode hex pairs; `None` stands for the `unwrap` panic |
| Instruction.StripSpacesRemovesAll | src/instruction.rs:36 | `replace(' ', "")` leaves no space and never lengthens the text |
| Instruction.StripSpacesNone | src/instruction.rs:36 | a text without spaces is unchanged |
| Instruction.StripSpacesAppend | src/instruction.rs:36 | stripping distributes over concatenation |
| Instruction.CommandTableDecodes | src/instruction.rs:18-25 | each spaced command text converts to its command bytes (10 FF 30 12, 10 FF 12 00 00, 10 FF F1 03, 10 FF 10 00 03, 1B 4A 40, 10 FF F1 45, 1D 76 30) |
| Instruction.StripThenDecode | src/instruction.rs:34-38 | `to_hex` decodes the text with its spaces removed |
| Instruction.ZeroPairsDecode | src/instruction.rs:27 | n copies of "00" convert to n zero bytes |
| Instruction.WakeMagicEndDecodes | src/instruction.rs:27 | PRINTER_WAKE_MAGIC_END is 3096 zero bytes, the conversion of "00" repeated 3096 times |
| Dither.InkBit | src/dither.rs:22-23 | a zero sample is ink ('1'), any brighter sample is '0' |
| Dither.Preamble | src/dither.rs:28 | '1' followed by 318 '0's: 319 bits |
| Dither.InkBits | src/dither.rs:20-25 | one bit per pixel, each '0' or '1' |
| Dither.BitString | src/dither.rs:28 | 319 preamble bits plus one bit per pixel, each '0' or '1' |
| Dither.PadToNibbles | src/dither.rs:31-33 | left-padded with fewer than four '0's to a multiple of four, the original bits last |
| Dither.ToHex | src/dither.rs:44-65 | an answer only for a four-character bit string; anything else is the panic |
| Dither.ToHexTotal | src/dither.rs:44-61 | every four-bit string maps to the uppercase digit of its value |
| Dither.ToHexDefinedIff | src/dither.rs:44-63 | the table answers exactly on the sixteen four-bit strings |
| Dither.ToHexInjective | src/dither.rs:44-61 | no two nibbles share a digit |
| Dither.BitsOfValueValue | src/dither.rs:44-61 | the four bits made from a value below 16 denote that value |
| Dither.NibbleBitsOfDigit | src/dither.rs:44-61 | expanding a nibble's digit gives back the nibble |
| Dither.HexOfBits | src/dither.rs:35-39 | the packing has a quarter as many digits as there are bits, all uppercase hex |
| Dither.HexThenBits | src/dither.rs:35-39 | expanding the packed digits back to bits gives the bits |
| Dither.BitsThenHex | src/dither.rs:35-39 | packing the expansion of uppercase hex gives the hex back |
| Dither.HexOfBitsIndex | src/dither.rs:35-39 | digit k is the digit of bits 4k to 4k+3 |
| Dither.HexOfBitsAppend | src/dither.rs:35-39 | packing distributes over concatenation of whole nibbles |
| Dither.HexOfZeroBits | src/dither.rs:35-39 | 4k zero bits pack to k '0' digits |
| Dither.InkBitsAppend | src/dither.rs:20-25 | the ink bits of joined rows are the rows' ink bits joined |
| Dither.ImageHex | src/dither.rs:16-41 | the packed text of an image is uppercase hex |
| Dither.CollectInkBits | src/dither.rs:17-25 | the nested pixel loop builds exactly the ink bits of the flattened image |
| Dither.PackNibbles | src/dither.rs:35-39 | the step-by-4 loop builds exactly the reference packing of the bits |
| Dither.MakeImageHexStr | src/dither.rs:16-41 | `make_image_hex_str` returns exactly the image's packed text |
| Dither.BitStringShape | src/dither.rs:28 | the bit string has 319 + w*h bits and opens with the preamble |
| Dither.InkBitPlacement | src/dither.rs:20-28 | bit 319 + y*w + x is '1' exactly when pixel (x, y) is 0 |
| Dither.ImageHexLength | src/dither.rs:16-41 | the text has ceil((319 + w*h) / 4) digits |
| Dither.PrinterWidthHexLength | src/dither.rs:16-41 | at 384 dots the text has 80 + 96h digits, so length / 96 is the row count h |
| Dither.ImageHexDigit | src/dither.rs:35-39 | each digit is uppercase hex and denotes its group of four padded bits |
| Dither.ImageHexRoundTrip | src/dither.rs:16-41 | expanded to bits, the text is fewer than four '0's, the preamble, then the ink bits |
| Dither.InkOf | src/dither.rs:16-41 | reading the last n bits of an expanded text succeeds exactly when there are n bits |
| Dither.ImageInkDecodes | src/dither.rs:16-41 | the last w*h bits of the expanded text are the image's ink bits |
| Dither.InkRecovered | src/dither.rs:20-25 | in the recovered bits, bit y*w + x is '1' exactly when pixel (x, y) is 0 |
| Dither.OneInkPixel | src/dither.rs:16-41 | a 1x1 image with one ink pixel packs to "8", seventy-eight "0"s and "1" |
| Printer.Link.constructor | src/printer.rs:23-28 | a fresh link has issued no write |
| Printer.Link.Write | src/printer.rs:23-28 | `write_ext`: appends the bytes to the write log; succeeds as the oracle says for that write's position |
| Printer.Accepted | src/printer.rs:124-163 | the number of leading writes the oracle accepts: all before it accepted, the one at it rejected |
| Printer.IssuedStopsAtFirstFailure | src/printer.rs:124-163 | a run issues a prefix of the plan; only its last write can be rejected; it ends Ok exactly when every planned write was accepted and the plan does not end in a panic |
| Printer.RunRejects | src/printer.rs:124-163 | a rejected write is the last one issued, and the run fails with a write error |
| Printer.RunCompletes | src/printer.rs:124-165 | when every write is accepted, the run issues the whole plan and ends with the plan's own ending |
| Printer.RunCons | src/printer.rs:124 | a first write that is rejected stops the run; an accepted one leaves the rest of the run to the remaining plan |
| Printer.Frame | src/printer.rs:149 | a frame is the decoding of its text and has half as many bytes as the text has digits |
| Printer.CountDigits | src/printer.rs:131 | the count field is the uppercase hex of length / 96 + 3 |
| Printer.CountFields | src/printer.rs:132-140 | `front_hex`/`end_hex`: with more than two digits, all digits but the first, then "0" and the first digit; otherwise the digits and "00" |
| Printer.HeaderText | src/printer.rs:142-145 | the prefix 1D7630003000, then the two fields, right-padded with '0' to 32 digits |
| Printer.FirstFrameText | src/printer.rs:142-146 | the header text followed by the first 224 digits of the image text |
| Printer.ChunkText | src/printer.rs:154-156 | every chunk has exactly 256 digits |
| Printer.ChunkTexts | src/printer.rs:153-161 | the chunks are 256 digits each, and decodable when the text is uppercase hex |
| Printer.ChunkCount | src/printer.rs:153 | the loop from offset i has ceil((length - i) / 256) turns, none when i is past the end |
| Printer.ChunkPadding | src/printer.rs:154-156 | the last chunk adds fewer than 256 padding digits |
| Printer.PaddingFillsChunk | src/printer.rs:153-156 | the remaining digits plus the padding fill whole chunks |
| Printer.FullChunk | src/printer.rs:154-156 | a chunk with 256 digits left is exactly those digits |
| Printer.LastChunk | src/printer.rs:154-156 | the final short chunk is the rest of the text followed by '0's to 256 |
| Printer.ChunksReassemble | src/printer.rs:153-161 | the chunks from offset i, joined, are the text from i followed by the padding |
| Printer.PayloadReassembles | src/printer.rs:146-161 | the first 224 digits and the chunks, joined, are the whole text followed by fewer than 256 '0's |
| Printer.ChunkAt | src/printer.rs:153-156 | chunk k starts at offset i + 256k; every chunk but the last is an unpadded slice |
| Printer.HeaderIsFrame | src/printer.rs:131-145 | for any usize length the count has at most 16 digits and the header is 32 hex digits |
| Printer.FirstFrameIsFrame | src/printer.rs:142-150 | the first frame text is 256 decodable digits |
| Printer.HeaderPrefixDecodes | src/printer.rs:144 | the fixed prefix is 1D 76 30 00 30 00: "GS v 0", mode 0, a width of 48 bytes |
| Printer.HeaderDecode | src/printer.rs:142-145 | a header with four field digits decodes to the prefix, two field bytes and eight zero bytes |
| Printer.HeaderCountLittleEndian | src/printer.rs:131-145 | for a count from 16 to 4095 the header carries it little-endian, low byte first |
| Printer.HeaderTwoDigitCount | src/printer.rs:135-140 | a two-digit count gives the bytes count, 0 |
| Printer.HeaderThreeDigitCount | src/printer.rs:135-140 | a three-digit count is split into count % 256 and count / 256 |
| Printer.HeaderShortCount | src/printer.rs:131-145 | a one-digit count (below 16) ends up as the byte 16 x count, not as the count |
| Printer.TenRowHeader | src/image.rs:19-23 | a 384 x 10 image, as the file branch makes of a 3840 x 100 picture, has the count 13, one digit, and the header count bytes D0 00 |
| Printer.FramePlan | src/printer.rs:146-163 | text below 224 digits panics before any write; otherwise at least the first frame, then STOP_PRINT_JOBS last |
| Printer.JobPlan | src/printer.rs:124-163 | a job starts with the wake write |
| Printer.FrameOrder | src/printer.rs:142-163 | the writes are the header frame, then chunk k from offset 224 + 256(k - 1) in ascending order, then STOP_PRINT_JOBS |
| Printer.FramesCarryPayload | src/printer.rs:142-161 | the frame bytes, joined, are the decoding of the 32-digit header and the whole text padded to a whole chunk: nothing lost, reordered or duplicated |
| Printer.FramesJoin | src/printer.rs:146-161 | decoding a joined list of frame texts gives the frames' bytes joined |
| Printer.ImageHexBound | src/printer.rs:129 | a u32 x u32 image gives a text whose length fits a usize |
| Printer.BuildHeader | src/printer.rs:131-145 | the header-building code computes exactly the header text |
| Printer.ChunkFrame | src/printer.rs:154-159 | one loop turn's bytes are the first frame of the chunk list from that offset |
| Printer.SendChunkLoop | src/printer.rs:152-161 | the chunk loop writes the chunk frames in order; on the first rejected write it stops, having issued what the chunk plan issues |
| Printer.SendChunks | src/printer.rs:152-163 | writes the chunks then STOP_PRINT_JOBS, stopping at the first failure, exactly as the chunk plan runs |
| Printer.SendFrames | src/printer.rs:131-165 | the whole framing issues exactly the writes of the frame plan up to the first failure, and returns the plan's outcome |
| Printer.CallPrinter | src/printer.rs:124-165 | `_call_printer`: issues the wake write, then the frames of the image's text, stopping at the first failure |
| Printer.NameMatches | src/printer.rs:174-176 | the properties carry a local name that contains "LuckP_D1" |
| Printer.FirstPrinter | src/printer.rs:168-183 | the scan outcome in list order |
| Printer.FirstPrinterSpec | src/printer.rs:168-183 | after skipping k devices: "not found" when all were skipped, a panic on missing properties, otherwise the first device whose name contains "LuckP_D1" |
| Printer.FindPrinter | src/printer.rs:168-183 | the loop with early return gives exactly the scan outcome |
| Printer.CharIndex | src/printer.rs:73-78 | the position of the first characteristic with the UUID; none before it has that UUID |
| Printer.FindChar | src/printer.rs:73-78 | none exactly when no characteristic has the UUID; otherwise one in the list with that UUID |
| Printer.FindCharFirst | src/printer.rs:73-78 | the characteristic found is the first one with the UUID |
| Printer.Discovery | src/printer.rs:43-79 | no peripherals, no printer, a panic on missing properties, or no WRITE_UUID characteristic, in that order; otherwise the printer and its first write characteristic |
| Printer.DiscoveryFinds | src/printer.rs:43-79 | discovery yields the first printer in list order and its first WRITE_UUID characteristic |
| Printer.SetupOrder | src/printer.rs:81-83 | setup writes DISABLE_SHUTDOWN, then SET_THICKNESS only after the first write succeeds; it succeeds exactly when both are accepted |
| Printer.Setup | src/printer.rs:81-83 | the two setup writes, stopping at the first failure |
| Printer.InitPrinter | src/printer.rs:30-86 | with no devices, no printer or no write characteristic it fails before any write; otherwise it runs setup and returns the printer and characteristic exactly when setup succeeds |
| Server.Truncate | src/main.rs:196-201 | a prefix of the text with min(length, n) characters |
| Server.TruncateIdempotent | src/main.rs:196-201 | truncating twice is truncating once |
| Server.Banner | src/main.rs:153-156 | the time, a newline, "REPO: ", the repository name, a newline |
| Server.IssueText | src/main.rs:152-164 | the banner, the issue announcement, the title, then "Content:" and the body |
| Server.CommentText | src/main.rs:170-176 | the banner, the issue title, then the commenter's login and the comment notice |
| Server.PingText | src/main.rs:178-183 | the banner, the zen line, then the set-up notice |
| Server.Route | src/main.rs:138-187 | 400 exactly for an event other than issues, issue_comment and ping; a plain 200 exactly when the action is not opened or created; any print starts with the time and repository banner |
| Server.MissingHeaderRefused | src/main.rs:138-143 | without the event header the default "none" is refused with 400 |
| Server.OpenedIssuePrinted | src/main.rs:147-164 | an opened issue is printed with its cleaned body cut to 60 characters, the text ending with that body |
| Server.StartUp | src/main.rs:56-104 | lookup failures panic before any write; then DISABLE_SHUTDOWN and SET_THICKNESS, failing on a rejected write, and the write characteristic on success |
| Server.ServerJobPlan | src/main.rs:233-295 | the server's job is the driver's job without the wake write |
| Server.CallPrinter | src/main.rs:233-295 | `call_printer`: issues the frame plan of the image's text, stopping at the first failure |
| Server.JobsAgree | src/main.rs:245-292 | after an accepted wake write the driver issues and ends exactly as the server does |
| PrinterImage.Dark | src/printer_image.rs:69 | `v / 255 < 0.5` in f64, which for an integer sample is 2v < 255 |
| PrinterImage.Or1 | src/printer_image.rs:70 | `this_byte` or-assigned with 1 sets the low bit and keeps the others |
| PrinterImage.Shl1 | src/printer_image.rs:72 | `this_byte <<= 1` on a u8: the low bit becomes 0 and the top bit is lost |
| PrinterImage.NarrowOrZero | src/printer_image.rs:48-53 | `try_into().unwrap_or(0)`: a value that fits a byte is kept, anything larger becomes 0 |
| PrinterImage.HeaderBytes | src/printer_image.rs:42-56 | mode 0, then `(w / 8) as u16` and h, each narrowed to a byte |
| PrinterImage.ImageMessages | src/printer_image.rs:31-81 | IMAGE_COMMAND_HEADER, the header bytes, then one message of row bytes per pixel row |
| PrinterImage.PrinterCommand | src/printer_image.rs:19-29 | ENABLE_PRINTER, SET_THICKNESS, the image messages, PRINTER_WAKE_MAGIC_END, PRINT_LINE_DOTS, STOP_PRINT_JOBS |
| PrinterImage.DarkThreshold | src/printer_image.rs:69-71 | a sample is dark, v / 255 < 0.5, exactly when it is at most 127 |
| PrinterImage.BitsValue | src/printer_image.rs:63-73 | the byte value of n pixels is below 2^n |
| PrinterImage.RowBytes | src/printer_image.rs:60-75 | a row encodes to w / 8 bytes |
| PrinterImage.PackByte | src/printer_image.rs:61-74 | the shift-and-or loop computes the dark bits of the eight pixels, first pixel in the top bit |
| PrinterImage.PackRow | src/printer_image.rs:59-75 | the scanner loop computes the row's w / 8 bytes |
| PrinterImage.PrepImageData | src/printer_image.rs:31-81 | `prep_image_data` returns exactly the reference message list |
| PrinterImage.CreatePrinterCommand | src/printer_image.rs:19-29 | `create_printer_command` returns exactly the reference job |
| PrinterImage.MessageShape | src/printer_image.rs:31-81 | 2 + h messages: the command header, a three-byte header, then one row of w / 8 bytes per pixel row, top first |
| PrinterImage.HeaderFields | src/printer_image.rs:42-56 | the header is mode 0, then w / 8 and h, each replaced by 0 when it does not fit a byte |
| PrinterImage.PrinterWidthHeader | src/printer_image.rs:48 | at 384 dots the width field is 48 |
| PrinterImage.WidthFieldWraps | src/printer_image.rs:48 | the `as u16` cast wraps: a width of 8 x 65537 gives a width field of 1 |
| PrinterImage.SkipNeverFires | src/printer_image.rs:64-67 | the `x > w` skip never fires: every pixel read lies inside the row |
| PrinterImage.BitOf | src/printer_image.rs:63-73 | bit n-1-j of the packed value is pixel j's dark bit |
| PrinterImage.PixelBit | src/printer_image.rs:58-79 | pixel (x, y) is bit 7 - x%8 of byte x/8 of row message y, set exactly when the pixel is dark |
| PrinterImage.RowIgnoresTail | src/printer_image.rs:60 | the columns past 8 x (w / 8) are not encoded |
| PrinterImage.CommandLayout | src/printer_image.rs:19-29 | 7 + h messages: ENABLE_PRINTER, SET_THICKNESS, the image messages, PRINTER_WAKE_MAGIC_END, PRINT_LINE_DOTS, STOP_PRINT_JOBS |
| Image.Compose | src/image.rs:26-27 | 27 '-', a newline, the text, then 135 spaces |
| Image.Weight | src/image.rs:50-59 | a line break weighs 0, a character up to code point 256 weighs 1 half-unit, any other 2 |
| Image.Step | src/image.rs:49-67 | one loop turn: a newline resets the weight and is pushed; a break goes in before a character that overflows 28 half-units; then the character |
| Image.Wrap | src/image.rs:46-67 | the loop's state after every character of the text, in order |
| Image.WrapText | src/image.rs:46-67 | the weight loop builds exactly the wrapped content |
| Image.LayOut | src/image.rs:26-67 | the laid-out content is the wrap of the composed text |
| Image.WrapBound | src/image.rs:46-67 | the running line weight never exceeds 28 half-units and equals the weight of the content's last line |
| Image.NewlineDoubled | src/image.rs:52-54 | a newline resets the weight and is written twice |
| Image.BreakRule | src/image.rs:61-66 | a break goes before a character exactly when it would take the line past the limit |
| Image.DropBreaksAppend | src/image.rs:46-67 | removing line breaks distributes over concatenation |
| Image.WrapKeepsText | src/image.rs:46-67 | wrapping only inserts line breaks: without them the content is the text |
| Image.MaxWidth | src/image.rs:100-104 | the widest image's width; 384 when there are no images |
| Image.OffsetStep | src/image.rs:108-113 | each image starts where the previous one ended |
| Image.OffsetBound | src/image.rs:105-113 | every image fits inside the summed height |
| Image.CopyFrom | src/image.rs:111 | `copy_from`: the image's pixels land at rows top onward, nothing else changes |
| Image.VConcat | src/image.rs:94-116 | a fresh buffer as wide as the widest image and as high as all of them, image k at its offset with blank beside it |
| Image.PlaceImage | src/image.rs:110-113 | one loop turn copies image k to its offset and keeps the images before it and the blank rows after it |
| Image.PlacedBefore | src/image.rs:108-113 | the images are stacked without overlap |
| Image.RowOwner | src/image.rs:105-113 | every output row belongs to one of the images |

## Left out

- Bluetooth plumbing: the manager, adapter, scan, `connect`, `discover_services` and the `properties()` call's own error path. These are foreign calls.
  - The link is an outcome oracle that decides each write. It is not tied to a peripheral or a characteristic.
  - A write's failure reason is collapsed into one `WriteFailed`.
- The sleeps and the `tokio::select!` time-outs of `init_printer` and `call_printer`. They are timing, not logic.
- `PRINTER_WAKE_MAGIC`: it is referenced at src/printer.rs:124 but no definition of it appears in the source. It is a parameter of the job.
- `decode_hex`: src/hex.rs is not part of this model.
  - Decoding is modelled as the standard pairwise hex decoding it is used for.
  - No claim is made about its behaviour on malformed input.
- The `get_unchecked(i..i + 256)` slice in the chunk loop reads past the end of the text for the last chunk whenever the text's length minus 224 is not a multiple of 256. That is undefined behaviour.
  - `ChunkText` models the evident intent: the remaining digits, padded with '0' to 256.
- `generate_image`'s rendering is left out: the image file branch, the font, `line_height`, drawing the lines, and the float-valued RGB work.
  - `generate_image` returns an `RgbImage`, and src/printer.rs:126-128 and src/main.rs:240-242 pass it straight to `DitherApply::new`, which takes a `GrayImage`. The source shows no conversion to grey, so it does not say how the samples are obtained. The model takes the grey samples as a parameter.
  - Image.Compose and the wrap loop are kept.
  - The f32 weights 0.5 and 1.0 become the integers 1 and 2, and the limit floor(384 / 24) - 2 = 14 becomes 28 half-units. Every f32 value involved is exact, so this changes nothing.
- `black_and_white_scale_effect` and any dithering before packing: these are foreign image operations. `prep_image_data` takes the single-channel samples it would read.
- Timestamps, the JSON decoding, the `to_str().unwrap()` of the header, trimming, and the Markdown-link regex.
  - The formatted time is the `now` parameter.
  - The body clean-up is the `clean` parameter.
- The actix server, `index()`, the `Mutex` and the handler glue (print, then `call_printer(..).unwrap()`, then 200). `Route` returns what would be printed; `Server.CallPrinter` models the print.
- Big-endian hosts: `from_current_into_little_endian` is the identity on the little-endian byte values used here.
- Image.VConcat: the output width is a maximum and cannot overflow; the `u32` sum of the heights (and the running `accumulated_h`) is an unbounded `nat` here, so its overflow is not modelled.
- Image.CopyFrom: its `unwrap` is not modelled. The model proves the bounds instead, so the error cannot occur.
- Printer.FramesCarryPayload: the payload is stated as the decoding of the header text followed by the padded hex text. It is not stated as a byte split of the frames.
- Printer.HeaderShortCount: the header keeps the code's behaviour for a line count below 16, which is a hex text under 1248 digits, or fewer than 13 rows at 384 dots. Such a count ends up as the byte 16 x count instead of the count. A rendered text image, at least two lines of a 24-point font, is taller than 13 rows; but the image-file branch of `generate_image`, which `_call_printer` takes for a picture (as the test at src/printer.rs:184-190 does), reaches it: it resizes to width 384 keeping the aspect ratio, so a 3840 x 100 picture becomes 384 x 10, with count 13 and count bytes D0 00 (Printer.TenRowHeader). The model records this behaviour and does not correct it.
