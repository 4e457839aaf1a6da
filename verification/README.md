# Verified models of PPR's filters, protocols and library

PPR is a print spooler. This project models the parts of it with the most state and
proves what they are for. Each model keeps the form of its source: an object or a set
of globals is a class, a loop is a loop, and what the loop is for is stated by a
function or a relation that does not mention it. `dafny verify dfyconfig.toml` checks
everything.

## What is modelled

- **Graphics of the dot matrix filter** (`PackBits.dfy`, `Ascii85.dfy`, `Graphics.dfy`).
  The run-length encoder with its three counters and the ASCII85 printer, against the
  RunLengthDecode and ASCII85Decode filters of section 3.13.3 of the PostScript Language
  Reference, third edition. The encoder scans one byte more than the data, so the
  data comes back followed by that byte; for a block that fills the buffer of 8640
  bytes the byte lies outside it, and is a parameter here.
- **PCL to PostScript** (`PostScript.dfy`, `PageMachine.dfy`, `PSout.dfy`, `PclRun.dfy`).
  A PostScript scanner and an interpreter for the operators of the filter's own prolog;
  the generator that delays and merges moves, spaces and strings; and the theorem that
  what it prints paints the naive printer's pages exactly when every glyph has a current
  point and no drift. The two ways to drift are a gap spaced out after a change of
  size, and a size that is not a multiple of 5; without the second, the runs that come
  out right are those with no page beginning in column 0 or on row 0 and no such gap.
- **The PCL parser** (`PclParser.dfy`, `PclReader.dfy`, `PclStreams.dfy`). Combined escape
  sequences, and byte by byte how much of a stream each command takes.
- **The line printer emulator** (`LineReader.dfy`, `LineStrokes.dfy`, `LineMachine.dfy`,
  `LineOutput.dfy`, `LinePages.dfy`, `LinePasses.dfy`, `LinePass2.dfy`, `LineFilter.dfy`).
  The reader of lines, an interpreter for the procset in columns and rows, the line encoder, and the
  two passes. Two families of documents come out wrong and are characterised exactly:
  text on whose line a form feed is read in column 0 is lost, and an octal escape of one
  or two digits takes in an octal digit that follows.
- **The AppleTalk interface** (`PapCopy.dfy`): the job loop of the Printer Access
  Protocol (Inside AppleTalk, second edition, chapter 10) under every interleaving:
  when a job arrives whole, when it gets through, and when the loop is held up.
- **The PROS interface** (`ProsProtocol.dfy`, `ProsSender.dfy`, `ProsReplies.dfy`): the
  sender under every interleaving, and the reply parser under every way of cutting the
  stream. The parser's move of the leftover is taken as it is meant to be; the move as
  it is written is proved right only when nothing is left over.
- **Exceptions** (`Exceptions.dfy`): the Try, Final and Catch macros over a stack of jump
  buffers, against structured exceptions.
- **The hash table** (`HashTable.dfy`), **copy-on-write strings** (`StringHeap.dfy`,
  `PerlStrings.dfy`) and **sliding arrays with split and join** (`PerlArray.dfy`).
- **The live list of names** (`NameList.dfy`, `NameBackend.dfy`): the backend, the text it
  prints, and a front end that reads it. Deletion moves whole records, as it is meant
  to; the move as it is written is proved right only for the last record.
- **Printing and reading numbers** (`NumberText.dfy`), over the reals.
- **The two parsers of the dot matrix filter** (`DotMatrix.dfy`, `DotMatrixPasses.dfy`,
  `DotMatrixCommands.dfy`): how much of the file each takes for a command, code by code,
  and when the two take the same.

Where a comment in the source and its code disagree, the code is followed: a fraction
is read to three digits although the comment says two (filter_pcl/PCLparse.java:539),
"set eight bit to 1" replaces every byte by 0x80 (filter_dotmatrix/escape.c:332-339), and
the hash does not always remove from the top what it mixes into the bottom
(libgu/gu_pch.c:287-291).

## Model

| member | source | states |
|---|---|---|
| RunLength.DecodeStep | filter_dotmatrix/graphics.c:222-322 | decoding complete packets takes one packet at a time, whatever follows them |
| RunLength.DecodeConcat | filter_dotmatrix/graphics.c:222-322 | the RunLengthDecode filter reads complete packets followed by more data as the two decoded one after the other |
| RunLength.DecodeRunPacket | filter_dotmatrix/graphics.c:240-248 | a run packet decodes to its run, also a run of one byte, whose length byte 257-1 is truncated to 0 and reads as a one-byte literal |
| RunLength.DecodeLiteralPacket | filter_dotmatrix/graphics.c:258-274 | a literal packet decodes to its bytes |
| RunLength.PackedRun | filter_dotmatrix/graphics.c:240-248 | storing a run packet for the next bytes keeps the stored packets decoding to exactly the bytes claimed so far, within two bytes each, and never writes the end-of-data byte 128 |
| RunLength.PackedLiteral | filter_dotmatrix/graphics.c:258-274 | the same for a literal packet |
| RunLength.DumpRun | filter_dotmatrix/graphics.c:240-248 | the code that stores a run extends the packets by exactly that run |
| RunLength.DumpLiteral | filter_dotmatrix/graphics.c:258-274 | the code that stores a literal extends the packets by exactly the bytes that end `unclaimed` bytes before the scan |
| RunLength.PackBits | filter_dotmatrix/graphics.c:222-322 | for every buffer and every n the packets decode to exactly the n+1 scanned bytes, hold no length byte 128 and take at most 2(n+1) bytes, through every interplay of rlength, litlength and unclaimed |
| Ascii85.DigitsValue | filter_dotmatrix/graphics.c:354-379 | the five base 85 digits of a 32-bit word have its value, so none is lost |
| Ascii85.BytesOfWord | filter_dotmatrix/graphics.c:344-348 | a word's bytes, most significant first, are the four bytes it was made of |
| Ascii85.PartialGroup | filter_dotmatrix/graphics.c:354-382 | the first k+1 digits of a word that ends in zeros, filled up with u (84), give back its first k bytes: what a decoder does with the last group |
| Ascii85.EmitGroup | filter_dotmatrix/graphics.c:335-380 | one turn of the output loop: the symbols printed decode to the next four bytes, or to the bytes left and the end of data |
| Ascii85.PrintTuple | filter_dotmatrix/graphics.c:354-379 | a tuple is printed as one symbol more than the bytes that are left of it |
| Ascii85.BreakLine | filter_dotmatrix/graphics.c:337-342 | breaking lines changes nothing that the decoder sees and fills lines of 60 data bytes |
| Ascii85.Print | filter_dotmatrix/graphics.c:324-382 | the text printed decodes, under the ASCII85Decode filter, to exactly the packet bytes and ends there, on as many lines as the header promises |
| Graphics.ReadHexByte | filter_dotmatrix/graphics.c:404-404 | two hexadecimal digits read back as the byte they print |
| Graphics.PrintHex | filter_dotmatrix/graphics.c:388-408 | the level 1 text reads back as exactly the data, on as many lines as thirty-nines of bytes are begun |
| Graphics.Read | filter_dotmatrix/graphics.c:150-174 | the buffer holds the bytes read, zeros where the input ended, and someblack tells whether any of them marks the paper |
| Graphics.Graphic | filter_dotmatrix/graphics.c:78-419 | the whole command: given up on exactly for a mode that is not among the twelve there are, refused exactly if the block is over 8640 bytes, no output exactly if nothing is black, and otherwise a block with 8, 24 or 9 pins to a column as mode and command say, a column having just the bytes its pins need, with the mode's density and as many lines as BeginData says, which an interpreter reads back as the data: exactly in level 1, and followed by one byte from behind the data in level 2, because the compressor scans one byte too many |
| GraphicsBlocks.ColumnsFitPins | filter_dotmatrix/graphics.c:120-144 | for every mode and length the bytes announced are as many columns of just the bytes that their pins need: 9 pins exactly for ESC ^, 24 exactly in the modes from 32 on, and else 8 |
| PostScript.ParseDigitsOfDigits | filter_pcl/PSout.java:198-257 | a number printed in decimal reads back as itself |
| PostScript.ClassifyDecimal | filter_pcl/PSout.java:198-257 | a printed integer, negative ones too, is scanned as that number |
| PostScript.ScanConcat | filter_pcl/PSout.java:271-317 | a PostScript scanner may stop anywhere and go on |
| PostScript.ScanNumber | filter_pcl/PSout.java:198-235 | a number and a space after complete tokens are one more token |
| PostScript.ScanCommentLine | filter_pcl/PSout.java:338-356 | a comment line adds no token |
| PageMachine.InterpName | filter_pcl/PSout.java:279-294 | an operator printed after complete tokens is executed on what they left |
| PageMachine.InterpEscaped | filter_pcl/PSout.java:400-417 | a character put into a string, with a backslash where it needs one, is that character of the string |
| PageCommands.InterpXY | filter_pcl/PSout.java:202-206 | `x y XY` moves to (x, -y) |
| PageCommands.InterpRelativeX | filter_pcl/PSout.java:232-236 | `d x` moves right by d from the current point, and fails without one |
| PageCommands.InterpRelativeY | filter_pcl/PSout.java:208-213 | `d y` moves down by d, and fails without a current point |
| PageCommands.GlyphsOfSpaces | filter_pcl/PSout.java:218-225 | n spaces move n advance widths and mark nothing |
| PageCommands.InterpSpaces | filter_pcl/PSout.java:226-230 | `n S` does what n spaces in a string do |
| PageCommands.InterpSetFont | filter_pcl/PSout.java:244-257 | findfont, scalefont and setfont select the named font at that size |
| PageCommands.ShiftIsProduct | filter_pcl/PSout.java:218-225 | n steps of a width are n times the width |
| PageCommands.ClosedChar | filter_pcl/PSout.java:378-417 | a character added to an open string shows one more glyph once the string is closed |
| PSoutModel.PsNameIsName | filter_pcl/PSout.java:244-257 | the font names used are PostScript names |
| PSoutModel.GetPostscriptName | filter_pcl/PSfont.java:79-94 | the name built piece by piece is that of the plain, bold, oblique or bold oblique Courier, as asked for |
| PSoutModel.WidthExact | filter_pcl/PSout.java:259-269 | the width counted for a character is the whole number nearest to six tenths of the font size, and the width it is painted with exactly if the size is a multiple of 5 |
| PSoutModel.PSout.OpenPage | filter_pcl/PSout.java:331-363 | starts a page only if none is open: a new number, the geometry asked for, no font, the origin as tracked position; a page that is open is left alone |
| PSoutModel.PSout.ClosePage | filter_pcl/PSout.java:366-375 | the page made so far joins the pages shown and the cursor goes home |
| PSoutModel.PSout.OpenString | filter_pcl/PSout.java:378-386 | opens a string only if none is open, and paints nothing by it |
| PSoutModel.PSout.CloseString | filter_pcl/PSout.java:390-397 | closes the string that is open, with nothing more painted than it held |
| PSoutModel.PSout.Move | filter_pcl/PSout.java:198-241 | the move commands do to the interpreter what the tracked difference calls for, as spaces of the string where that is allowed |
| PSoutModel.PSout.MoveEffect | filter_pcl/PSout.java:198-241 | after them the current point is at the cursor, but for a drift that is given exactly |
| PSoutModel.PSout.AttainPosition | filter_pcl/PSout.java:198-241 | leaves the current point where the cursor is, plus the drift; on a page just begun there is a current point exactly if both coordinates differ from 0 |
| PSoutModel.PSout.AttainFont | filter_pcl/PSout.java:244-257 | leaves the interpreter with the font asked for, whether or not it has to be sent |
| PSoutModel.PSout.Printable | filter_pcl/PSout.java:400-417 | one glyph joins the page, at the cursor plus a drift given exactly, in the font asked for; the job fails exactly if the page is new and a coordinate is 0 |
| PSoutModel.PSout.Finish | filter_pcl/PSout.java:317-328 | the last page is shown and the trailer counts the pages |
| PclRun.JobTracksIdeal | filter_pcl/PSout.java:161-417 | over any run the painted job and the naive printer agree on cursor, font and page, and on the number of glyphs and pages |
| PclRun.FaithfulStep | filter_pcl/PSout.java:161-417 | a command keeps the paper right exactly if it was right and the command's own glyph is placed right |
| PclRun.FaithfulIffPlaced | filter_pcl/PSout.java:161-417 | for every run of moves, fonts, sizes, characters and ejects the painted document is the naive printer's, glyph by glyph and page by page, if and only if every glyph has a current point to start from and no drift |
| PclRun.DriftlessStep | filter_pcl/PSout.java:215-231 | between sizes that are multiples of 5 a glyph goes astray exactly when a gap is spaced out after the size changed, the position being attained before the font |
| PclRun.FivesIff | filter_pcl/PSout.java:198-417 | with sizes that are all multiples of 5, for every run: the pages are the naive printer's if and only if no page begins with a glyph in column 0 or on row 0 and no glyph comes a whole number of spaces after one of another size |
| PclRun.SteadyIffReaches | filter_pcl/PSout.java:161-417 | with one such size a run comes out right if and only if no page begins with a glyph in column 0 or on row 0 |
| PclRun.SpaceInOldFont | filter_pcl/PSout.java:402-403 | a run of four commands in which the second letter lands 288 units too far right |
| PclRun.LeftEdgeFails | filter_pcl/PSout.java:198-241 | with the cursor moved to the left edge the first character of a page fails, whatever it is |
| PclRun.PitchDrifts | filter_pcl/PCLparse.java:361-365 | at 17 characters to the inch two letters in a row already drift |
| PclRun.PrintOne | filter_pcl/PSout.java:400-417 | the generator stays in step with the job over a character |
| PclRun.Perform | filter_pcl/PSout.java:161-417 | and over every command |
| PclRun.PrintAll | filter_pcl/PSout.java:119-417 | interpreting everything printed for a run of moves, fonts, sizes, orientations, characters and ejects gives the naive printer's pages if and only if every glyph is placed |
| PclParser.NumeralThen | filter_pcl/PCLparse.java:517-568 | a numeral ends where a parameter character begins |
| PclParser.ExecuteOne | filter_pcl/PCLparse.java:446-455 | a command reads exactly the raster bytes that its value calls for, or ends the program by dividing by zero |
| PclParser.ReadOne | filter_pcl/PCLparse.java:506-572 | one parameter is read as its command and data, and what follows a lower case character is read as the next |
| PclParser.ReadCombined | filter_pcl/PCLparse.java:506-572 | combined parameters are read to their end as the commands they mean |
| PclParser.ParseCombined | filter_pcl/PCLparse.java:483-573 | a combined escape makes those commands, with their data, and the rest of the stream is parsed after it |
| PclParser.ParseSeparate | filter_pcl/PCLparse.java:483-573 | so do the separate escapes |
| PclParser.CombinedIffSeparate | filter_pcl/PCLparse.java:483-573 | for any number of parameters, with any values and data, also a zero that ends the program, the combined escape does exactly what the separate ones do, if and only if there is a group character or a first numeral (or one parameter only) |
| PclReader.NumeralValue | filter_pcl/PCLparse.java:517-558 | a numeral, with or without a point and with either sign or none, is worth a thousand times its whole part plus its fraction cut off after three places, and a minus sign turns it round |
| PclReader.NumeralForm | filter_pcl/PCLparse.java:517-558 | and everything read as a numeral has that form |
| PclReader.Reader.ReadNumeral | filter_pcl/PCLparse.java:517-558 | the digit loops compute that value and stop at the character after the numeral, or report the end of the stream |
| PclReader.Reader.ParameterizedEsc | filter_pcl/PCLparse.java:446-455 | the raster loop consumes one byte for every thousand of the value begun, or what there is; a zero value that is divided by ends the parse; which commands these are PclStreams says byte by byte |
| PclReader.Reader.Combination | filter_pcl/PCLparse.java:491-572 | the do-while loop makes the commands of one escape, in both cases of the group character |
| PclReader.Reader.ParseStream | filter_pcl/PCLparse.java:477-594 | the whole parser, character by character, makes exactly the events that the stream means and ends as it should; what a stream means the rows below say byte by byte |
| PclStreams.PlaceValue | filter_pcl/PCLparse.java:525-531 | each digit of a whole number is worth ten times the next |
| PclStreams.FractionValue | filter_pcl/PCLparse.java:533-558 | of a fraction the first three places count, as far as there are any |
| PclStreams.Characters | filter_pcl/PCLparse.java:581-590 | outside escape sequences every byte stands for itself: a control character up to 32, a printable one above |
| PclStreams.SimpleEscapes | filter_pcl/PCLparse.java:575-579 | ESC and a character outside 33 to 47 are all there is to an escape sequence |
| PclStreams.Misended | filter_pcl/PCLparse.java:560-568 | a numeral followed by anything but 64 to 94 or 96 to 126 ends the escape sequence with that byte |
| PclStreams.CutOff | filter_pcl/PCLparse.java:467-473 | a stream that ends within an escape sequence ends there |
| PclStreams.RasterRow | filter_pcl/PCLparse.java:446-455 | for every numeral, all data of the length it calls for and everything after, ESC * b numeral W data is that command, exactly that data, and then the parse of what comes after |
| PclStreams.RasterShort | filter_pcl/PCLparse.java:446-455 | and with less data than that it is the end of the stream |
| PclStreams.DividesByZero | filter_pcl/PCLparse.java:302-304 | ESC & l D and ESC ( s H end the program for zero written in any way |
| PclStreams.OtherCommands | filter_pcl/PCLparse.java:168-463 | no other command, with or without a group character, takes a byte after its last character or ends the program |
| PclStreams.Combining | filter_pcl/PCLparse.java:506-572 | a last character 32 higher does the same, its data included, and what follows is read as if the escape sequence were opened again with the same group |
| LineMachine.ScanWritten | filter_lp/filter_lp.c:1331-1396 | a character written into a string, plain, with a backslash or in octal, is read as itself |
| LineMachine.ScanAbsorbed | filter_lp/filter_lp.c:1331-1396 | an octal digit after an unfinished octal escape is taken into the escape |
| LineCommands.ViewIndent | filter_lp/filter_lp.c:1259-1266 | `n i` sets the interpreter's indent |
| LineCommands.ViewFont | filter_lp/filter_lp.c:1282-1322 | b and r select the weight between strings |
| LineCommands.ViewFontInString | filter_lp/filter_lp.c:1282-1322 | a and q end a string and select the weight for the next |
| LineCommands.ViewSkipLetter | filter_lp/filter_lp.c:1271-1280 | the letters A to Z end a string and skip 4 to 29 columns |
| LineCommands.ViewSkipLong | filter_lp/filter_lp.c:1271-1280 | a number and t skip more |
| LineCommands.ViewEnd | filter_lp/filter_lp.c:1401-1403 | p ends the line |
| LinePrinterModel.LinePrinter.PrintIndent | filter_lp/filter_lp.c:1259-1266 | the tracked indent and the interpreter's agree afterwards, whether or not it had to be sent |
| LinePrinterModel.LinePrinter.ChangeFont | filter_lp/filter_lp.c:1282-1322 | the tracked weight and the interpreter's agree afterwards, with nothing painted |
| LinePrinterModel.LinePrinter.Put | filter_lp/filter_lp.c:1331-1396 | a character is painted as itself, or, exactly after an unfinished octal escape when it is an octal digit, swallowed |
| LinePrinterModel.LinePrinter.SkipSpaces | filter_lp/filter_lp.c:1271-1280 | a run of more than three spaces moves on by as many columns |
| LinePrinterModel.LinePrinter.PrintChar | filter_lp/filter_lp.c:1282-1398 | the next character goes to its own column in its own weight |
| LinePrinterModel.LinePrinter.OutputLine | filter_lp/filter_lp.c:1250-1403 | a line's glyphs land in their own columns, row and weight if and only if no one- or two-digit octal escape is followed by an octal digit in the same weight; otherwise there are too few; either way indent, weight and row are right for the next line |
| LineSheets.SheetWithinSegment | filter_lp/filter_lp.c:1418-1486 | with lines dropped at the top, a page ends at its form feed and drops only blank lines |
| LineSheets.FitsAfter | filter_lp/filter_lp.c:1418-1486 | what is left after a page still fits the layout, also after a page that filled exactly |
| LineSheets.UsedLines | filter_lp/filter_lp.c:1418-1486 | a page prints exactly the lines it uses up |
| LineSheets.EveryLineOnce | filter_lp/filter_lp.c:1418-1486 | whatever the document, the lines printed are its non-blank lines, each once and in order |
| LineSheets.SheetMarksIff | filter_lp/filter_lp.c:1418-1486 | a page shows the characters of its lines other than spaces and nothing else: those of its r-th line on row r, in their weight, moved left by the columns dropped |
| LineSheets.PageBreaks | filter_lp/filter_lp.c:1418-1486 | a page ends after the lines dropped and as many more as go on one, before that only at a form feed, which is used up, or with the document, and has exactly the lines below those dropped |
| LineSheets.PagesNumbered | filter_lp/filter_lp.c:1418-1486 | the pages with something on them are numbered one after another |
| LineMeasure.Pass1 | filter_lp/filter_lp.c:541-646 | pass 1 finds the least blank top and the least indent of all pages, the longest page, and whether there are form feeds |
| LineMeasure.RoomyFits | filter_lp/filter_lp.c:541-646 | a layout with room for every page drops only blank lines |
| LineMeasure.ChosenLayoutFits | filter_lp/filter_lp.c:541-646 | the layout chosen from what pass 1 measured drops only blank lines at the top and cuts only spaces from the left, for every document and all limits |
| LineMeasure.ChosenLayoutSuits | filter_lp/filter_lp.c:541-646 | the layout chosen is what the document calls for: the left margin dropped is the least indent of a line of text if that is below 1000 and otherwise none, the top margin is the least row of one if form feeds divide the document into pages within the limit and otherwise none, and the page length follows from these |
| LineMeasure.OneLayoutSuits | filter_lp/filter_lp.c:541-646 | and there is one such layout only, for every document and all limits |
| LineMeasure.GlyphLands | filter_lp/filter_lp.c:1418-1486 | a character other than a space, on a line that does not come with a form feed, is on a page, in its own column and on its own row on paper less what is dropped |
| LineMeasure.LeftMarginUsed | filter_lp/filter_lp.c:571-572 | so something is printed in column 0, if a line with the least indent, below 1000, comes without a form feed |
| LineMeasure.TopMarginUsed | filter_lp/filter_lp.c:576-578 | and something on row 0, if form feeds divide the document into pages within the limit and the highest line of text, above row 1000, comes without a form feed |
| LinePrinting.StartPage | filter_lp/filter_lp.c:1163-1177 | a page starts on row 0 with its number, in roman, unindented, and the tracked state says so |
| LinePrinting.EndPage | filter_lp/filter_lp.c:1182-1185 | restore brings back the state from before the page and shows it |
| LinePrinting.FlushNewLines | filter_lp/filter_lp.c:1455-1462 | the newlines owed move down as many rows |
| LinePrinting.PrintLine | filter_lp/filter_lp.c:1448-1468 | a line goes to the row that the lines read so far call for |
| LinePrinting.ReadPage | filter_lp/filter_lp.c:1437-1472 | a page is read up to its form feed, its last line or the end, and what is on the paper is what was read |
| LinePrinting.OnePage | filter_lp/filter_lp.c:1432-1482 | a page is printed exactly if it is not blank, with its number, and the rest of the document is left |
| LinePrinting.TurnPage | filter_lp/filter_lp.c:1418-1486 | over a page printed, pages made and pages wanted stay in step |
| LinePrinting.Pass2 | filter_lp/filter_lp.c:1418-1486 | interpreting pass 2's output with its own procset gives exactly the pages wanted, numbered from 1, glyph by glyph, if and only if no printed line has an octal escape that runs into a digit; the trailer counts the pages |
| LineReaderModel.LineReader.ReadLine | filter_lp/filter_lp.c:258-353 | the loop over the line buffer delivers the line that the bytes mean, with tabs, backspaces, carriage returns, overstriking for bold and the pending form feed, or reports a character put left of the buffer |
| LineBytes.FileWellFormed | filter_lp/filter_lp.c:258-353 | no line delivered ends with a space, whatever the file |
| LineBytes.FeedsIff | filter_lp/filter_lp.c:317-322 | a line of text is delivered together with a form feed if and only if the form feed is read in column 0 of it |
| LineBytes.FileFeedsIff | filter_lp/filter_lp.c:317-322 | and so for all lines of a file |
| LineBytes.PlainLine | filter_lp/filter_lp.c:336-348 | plain characters put at the end of a line are as many columns of it |
| LineBytes.ReturnThenFeed | filter_lp/filter_lp.c:317-322 | any text that does not end with a space, a carriage return and a form feed are one line delivered with its form feed |
| LineBytes.FeedAlone | filter_lp/filter_lp.c:317-322 | with the form feed alone the line comes first and the form feed after it |
| LineStrokes.TabStep | filter_lp/filter_lp.c:300-308 | a tab moves on to the next multiple of the tab width, leaves what is there and puts spaces where nothing is |
| LineStrokes.SpaceStep | filter_lp/filter_lp.c:329-333 | a space moves on over what is there |
| LineStrokes.CharacterStep | filter_lp/filter_lp.c:334-339 | another character takes the place of what is there and keeps its weight, and the same character becomes bold |
| LineStrokes.MovingSteps | filter_lp/filter_lp.c:295-314 | a backspace moves back one column, a carriage return to the first, and a zero does nothing |
| LineStrokes.LeftOfLine | filter_lp/filter_lp.c:297-299 | left of the line no character can be put |
| LineStrokes.LineEnds | filter_lp/filter_lp.c:286-352 | a line ends after its last column, at a line feed, a form feed or with the file, and at a carriage return if that stands for both, and comes without the spaces at its end |
| LineStrokes.PrintedTwice | filter_lp/filter_lp.c:309-348 | any text printed and, after a carriage return, printed over itself is one line of the same text in bold, but for its spaces |
| LineStrokes.TextThenLineFeed | filter_lp/filter_lp.c:315-316 | any text and a line feed are the first line of the file |
| LineStrokes.TextThenFormFeed | filter_lp/filter_lp.c:268-273 | any text and a form feed are its first two lines, the second of them empty and with the form feed |
| LineReaderModel.ReadLines | filter_lp/filter_lp.c:258-353 | calling it until the end gives the lines of the file |
| LineFilter.LostLines | filter_lp/filter_lp.c:317-322 | the document's lines are fewer than its lines of text exactly if some line of text comes together with a form feed |
| LineFilter.EveryLinePrinted | filter_lp/filter_lp.c:317-322 | every line of text is printed, once and in order, if and only if none comes together with a form feed |
| LineFilter.CarriageReturnFormFeedLoses | filter_lp/filter_lp.c:317-322 | any text that does not end with a space, followed by a carriage return and a form feed, is lost, with every layout and whatever comes after it |
| LineFilter.Filter | filter_lp/filter_lp.c:541-646 | both passes together, with the one layout that the document and the limits call for: the interpreter's pages are those of that layout if and only if every line is legible, they hold the document's lines once each and in order, and the trailer gives their number |
| LineFilter.FilterFile | filter_lp/filter_lp.c:258-646 | from the bytes: the layout is the one that the lines read and the limits call for; the interpreter's pages are those of that layout if and only if every line is legible, and they hold every line of text once and in order if and only if no form feed is read in column 0 of one; no pages exactly if a character goes left of the line buffer |
| LineFilter.BellThenDigit | filter_lp/filter_lp.c:1340-1341 | a bell and the digit 1 are misread |
| PapCopy.Interface.OneTurn | interfaces/atalk_ali.c:490-709 | the body of the loop, on its own variables, makes of them what the function PapCopy.Step says, of which the rows below state the rest |
| PapCopy.StepEffect | interfaces/atalk_ali.c:490-709 | what one turn does, by what is seen, what is in the buffer and whether the write is taken: an accepted write sends that buffer and ends the blocking of writes, a refused one keeps the buffer and blocks them |
| PapCopy.ReadsAll | interfaces/atalk_ali.c:490-523 | a turn reads what there is, up to a quantum |
| PapCopy.StepCopying | interfaces/atalk_ali.c:490-709 | every turn, whatever happens in it, keeps data sent, buffer and pipe together the job, sends blocks of at most a quantum with EOJ exactly on the empty one, and sends nothing after EOJ |
| PapCopy.RunCopying | interfaces/atalk_ali.c:450-713 | and so does any number of turns |
| PapCopy.EndedEarlyBy | interfaces/atalk_ali.c:921-929 | a loop that ended without sending EOJ was ended by an EOJ of the printer, sent in a turn before which it had got no more than the jobs before |
| PapCopy.WholeIffInReply | interfaces/atalk_ali.c:450-713 | for every interleaving after which the loop has ended: the printer has the whole job and one EOJ with nothing after it, if and only if in no turn taken did it send EOJ before it got one |
| PapCopy.EndedIff | interfaces/atalk_ali.c:490-709 | after any run the job is broken off if and only if some turn taken broke it off, and the printer's EOJ has come if and only if it came in a turn taken |
| PapCopy.LoopEndsIff | interfaces/atalk_ali.c:450-713 | the loop ends by itself if and only if no turn broke it off and either the printer's EOJ came in a turn taken or the printer is no LaserWriter and has the whole job |
| PapCopy.BlockedIff | interfaces/atalk_ali.c:560-606 | after any run writes count as blocked if and only if the last write tried was refused |
| PapCopy.CaughtIff | interfaces/atalk_ali.c:607-640 | SIGUSR1 counts as caught exactly if it came in the wait of some turn taken |
| PapCopy.HelpfulRun | interfaces/atalk_ali.c:490-580 | a job that is all in gets sent with its EOJ in as many helpful turns as there are bytes left, and one more; a turn in which nothing is to be seen helps too, as long as no write was refused |
| PapCopy.JobEnds | interfaces/atalk_ali.c:450-713 | every job gets through, the last one and the others: once SIGUSR1 is caught, or at once for the last job, helpful turns, also such in which nothing is to be seen, and the EOJ in answer end the loop with the job whole |
| PapCopy.HeldUpIff | interfaces/atalk_ali.c:607-613 | for every run, the loop waits with the job sent, no EOJ sent and only the printer to wake it, if and only if this turn sent the last of the data and SIGUSR1 was caught in the wait of an earlier one |
| PapCopy.HoldUpHappens | interfaces/atalk_ali.c:607-613 | and that happens: SIGUSR1 comes while the only block of a job waits to be sent |
| PapCopy.Interface.CopyJob | interfaces/atalk_ali.c:450-713 | the loop ends in the state PapCopy.Run says; when it has ended by itself the printer has the job, whole and ended by one EOJ, if and only if it sent EOJ only in reply; at any other time it has the beginning of the job and no EOJ of it |
| PapCopy.Interface.Session | interfaces/atalk_ali.c:921-925 | jobs one after another: the session is done if and only if every loop ended with the printer sending EOJ only in reply; then the printer has exactly these jobs and every one but the last is answered; in any case the jobs it has are the first ones |
| ProsMessages.LengthOfPrefix | interfaces/pros.c:341-357 | more data does not change how a whole message is read |
| ProsMessages.OnTheWire | interfaces/pros.c:305-320 | a message is its code with the high bit, the length of its data with the more significant byte first, and the data; or its code alone |
| ProsMessages.ParseConcat | interfaces/pros.c:235-253 | parsing may stop anywhere and go on from what is left over |
| ProsMessages.ParseEncode | interfaces/pros.c:305-320 | a packed message is read back as itself |
| ProsMessages.ParseSnoc | interfaces/pros.c:305-320 | a message packed after whole messages is one message more |
| ProsSender.HeardHeader | interfaces/pros.c:156-161 | the packed header is heard as the four header messages in order |
| ProsSender.HeaderOnWire | interfaces/pros.c:152-161 | the bytes of the first block: 162 and the host, 161 and the user, 163 and the printer, 164 and the password, each with its length |
| ProsSender.ProperIff | interfaces/pros.c:138-297 | what the server hears counts as proper if and only if it is four header messages with data, data messages none of which is empty, one end of job, and after that nothing but tickles |
| ProsSender.Pack | interfaces/pros.c:305-320 | packing appends the message, or leaves the buffer as it was and says so if there is no room |
| ProsSender.Client.OneTurn | interfaces/pros.c:166-296 | the body of the loop, on its own buffer and variables, makes of them what the function ProsSender.Step says, of which the rows below state the rest |
| ProsSender.ReplyTurn | interfaces/pros.c:235-253 | a turn with something from the server notes the acknowledgements and writes and reads nothing else |
| ProsSender.WritingTurn | interfaces/pros.c:256-272 | a turn with a full buffer writes all of it if the socket takes it, and no more |
| ProsSender.IdleTurn | interfaces/pros.c:174-212 | with an empty buffer nothing is sent before the start is acknowledged; at the end of stdin the byte 32 is, once, and then the byte 38 when a tickle is due |
| ProsSender.ReadingTurn | interfaces/pros.c:275-295 | a turn that reads stdin takes what is there, up to 4096 bytes, into one block of the byte 165, the length and the data; at the end of stdin nothing is to be sent |
| ProsSender.DispatchedSending | interfaces/pros.c:256-272 | what is written is one proper message more |
| ProsSender.FilledSending | interfaces/pros.c:275-295 | what is read from stdin goes into one data message of that length |
| ProsSender.StepSending | interfaces/pros.c:166-296 | every turn keeps the messages heard in their order and data heard, buffer and stdin together the job |
| ProsSender.Outcome | interfaces/pros.c:138-297 | at any time: proper messages only, the header first, data only after the start was acknowledged, and the end told only after all of stdin |
| ProsSender.NeverTold | interfaces/pros.c:166-212 | an end-of-job acknowledgement that comes before the end is told keeps it from ever being told |
| ProsSender.ToldIffInReply | interfaces/pros.c:138-297 | for every run after which the loop has ended: the server has the four header messages and all of stdin, and has been told the end if and only if in no turn taken did it acknowledge the end before hearing it |
| ProsSender.JobEnds | interfaces/pros.c:138-297 | every job gets through: once the start is acknowledged, two helpful turns for each byte and three more get the whole job and its end heard, and the acknowledgement ends the loop |
| ProsSender.Client.CopyJob | interfaces/pros.c:138-297 | the loop ends in the state ProsSender.Run says; whatever the server does, it hears the four header messages, data only after it acknowledged the start, and only tickles after EOF; when the loop has ended all of stdin is heard, and EOF if and only if the server acknowledged the end only in reply |
| ProsReplies.MoveRightIffNothingLeft | interfaces/pros.c:411-413 | the move as written is right, for every leftover of a given size and after any message, if and only if nothing is left over |
| ProsReplies.WrittenBytes | interfaces/pros.c:411-413 | what the move as written leaves: after a message with data everything but as many bytes as the message was long, after one without two bytes less from the front and three less at the end, each made up for by what was there; and a negative size for a shorter leftover |
| ProsReplies.HandleConcat | interfaces/pros.c:329-417 | handling messages in two batches is handling them in one |
| ProsReplies.FlagsIff | interfaces/pros.c:359-376 | messages are handled up to the first with the 0x40 bit or the code 3, which ends the program, and start and end of the job count as acknowledged exactly if 49 and 48 are among those before it |
| ProsReplies.FitsIff | interfaces/pros.c:235-253 | a message fits the receive buffer exactly if it has at most 4096 bytes of data |
| ProsReplies.ReplyHandler | interfaces/pros.c:329-417 | with the leftover moved by the length of the message: the whole messages in the buffer are handled in order, and the leftover is at the front |
| ProsReplies.LeftoverFits | interfaces/pros.c:235-253 | what is left over always leaves room in the buffer when no body is longer than 4096 bytes |
| ProsReplies.TakePiece | interfaces/pros.c:235-253 | one read and its handling keep handled messages and leftover those of the stream so far |
| ProsReplies.ReceiveStream | interfaces/pros.c:235-253 | however a stream is cut up by read(), the messages handled are those of the stream parsed at once |
| Exceptions.MeaningAdds | include/gu.h:350-403 | what guarded code does depends on nothing but the last exception, and it only adds to what was observed |
| Exceptions.MeaningLeaves | include/gu.h:350-403 | whether it raises, and which exception it leaves, depends on nothing but the code |
| Exceptions.FinalRunsOnceInBetween | include/gu.h:388-403 | body, then Final once, then the handler if the body raised and Final did not |
| Exceptions.CleanupExactlyOnce | include/gu.h:374-391 | a cleanup step is observed exactly once, after all of the body and before all of the handler |
| Exceptions.HandlerFindsWhatWasRaised | include/gu.h:388-403 | the handler finds the exception the body raised, for every exception, if and only if the Final block sets none itself, caught or not |
| Exceptions.HandlerReports | libgu/gu_exceptions.c:71-118 | through any number of blocks that throw it again, a handler finds the message thrown, up to 255 characters of it, with the code -1, or the code given and up to 99 characters |
| Exceptions.CleanupHidesException | include/gu.h:388-403 | a Final block that catches an error of its own makes the handler report that one |
| Exceptions.NestRunsIffItFits | libgu/gu_exceptions.c:54-59 | code within n blocks runs if and only if n more blocks fit the limit of 25 |
| Exceptions.Machine.DoReThrow | libgu/gu_exceptions.c:104-118 | a rethrow jumps to the innermost active block's buffer, or ends the program if there is none |
| Exceptions.Machine.DoThrow | libgu/gu_exceptions.c:71-81 | a throw records code -1 and the message, cut to 255 characters, and goes there |
| Exceptions.Machine.DoCodeThrow | libgu/gu_exceptions.c:83-93 | a coded throw records its code and the message, cut to 99 characters |
| Exceptions.Machine.TryFunct | libgu/gu_exceptions.c:54-59 | entering a block pushes its buffer, or throws if 25 are active |
| Exceptions.Machine.Run | include/gu.h:350-403 | for every nest of Try, Final and Catch the jump-buffer machine does what structured exceptions mean, jumps to the innermost active block when they raise, and leaves the active blocks as they were |
| HashTable.GuHash | libgu/gu_pch.c:277-295 | the hash is a function of the string, in range |
| HashTable.AddedIs | libgu/gu_pch.c:286-286 | each character makes the total sixteen times what it was and the character more, as a number from -128 to 127, modulo 2^32 |
| HashTable.MixedInIs | libgu/gu_pch.c:287-291 | for every total its top four bits are mixed into bits 4 to 7, and removed from the top, as the comment there says, if and only if the uppermost of them was not set; otherwise, the shift being that of a signed number, they are all ones and bits 8 to 27 inverted |
| HashTable.Table.Find | libgu/gu_pch.c:145-149 | the walk along a chain ends at the entry with the key, exactly if the map has it, and knows the link to it |
| HashTable.Table.Get | libgu/gu_pch.c:170-185 | looks the key up in the map, NULL if it is not there |
| HashTable.Table.Set | libgu/gu_pch.c:137-163 | the map afterwards has the key with the value, key_count its size; an iterator goes on with the keys it had ahead, and perhaps the new one |
| HashTable.Table.Delete | libgu/gu_pch.c:191-208 | the map afterwards lacks the key; an iterator survives if and only if the key is not the one it would come to next, and then has the same keys ahead but that one |
| HashTable.Table.Size | libgu/gu_pch.c:264-268 | the number of keys |
| HashTable.Table.Rewind | libgu/gu_pch.c:216-221 | puts every key ahead |
| HashTable.Table.NextBucket | libgu/gu_pch.c:242-250 | the search for the next bucket skips no key |
| HashTable.Table.NextKey | libgu/gu_pch.c:239-261 | returns the first of the keys ahead with its value and leaves the others, or NULL if there are none |
| HashTable.CutAhead | libgu/gu_pch.c:191-208 | taking an entry out of a chain takes its key, and nothing else, from what an iterator has ahead |
| HashTable.PositionedCut | libgu/gu_pch.c:191-208 | an iterator stays valid over the removal of any entry but the one it is at |
| HashTable.EveryKeyOnce | libgu/gu_pch.c:210-261 | what is ahead after a rewind is every key of the map once |
| HashTable.Traverse | libgu/gu_pch.c:222-238 | rewinding and taking keys until NULL visits every key exactly once, with its value |
| StringHeap.FreedExactlyWhenUnseen | libgu/gu_pcs.c:113-145 | storage is allocated exactly as long as a handle's object has it or a kept C string is in it |
| StringHeap.RewriteAlone | libgu/gu_pcs.c:186-258 | giving an object with one handle and no lurker a new string changes that handle's value and nothing else that can be seen |
| StringHeap.FreeSound | libgu/gu_pcs.c:113-127 | dropping a handle keeps refcount the handles plus the lurkers of every object left, and frees what nobody can see |
| StringHeap.FreeValues | libgu/gu_pcs.c:113-127 | and changes no other value and no kept C string |
| StringHeap.GiveSound | libgu/gu_pcs.c:134-145 | so does turning a handle into a lurker |
| StringHeap.GiveValues | libgu/gu_pcs.c:134-145 | which keeps the storage as a C string |
| StringHeap.SnapSound | libgu/gu_pcs.c:172-177 | and taking a snapshot |
| StringHeap.SnapValues | libgu/gu_pcs.c:172-177 | which gives the new handle the old one's value |
| PerlStrings.Strings.Realloc | libgu/gu_pcs.c:186-196 | room for the size asked for and what was there, the rest unknown but for its last byte |
| PerlStrings.Strings.Grow | libgu/gu_pcs.c:186-196 | called by itself: kept C strings stay valid if and only if there are none or there is room; a string without storage becomes whatever is found there, and is empty again if and only if its first byte happens to be zero |
| PerlStrings.Strings.CopyOnWrite | libgu/gu_pcs.c:292-298 | the handle gets an object of its own with the same value, nothing else changes; it fails exactly if the object is shared and has no storage |
| PerlStrings.Strings.Free | libgu/gu_pcs.c:113-127 | the handle is gone, all other values and kept strings stay |
| PerlStrings.Strings.FreeKeepCstr | libgu/gu_pcs.c:134-145 | the handle is gone and its value is kept as a C string |
| PerlStrings.Strings.Snapshot | libgu/gu_pcs.c:172-177 | the new handle has the value, all else stays |
| PerlStrings.Strings.SetCstr | libgu/gu_pcs.c:207-221 | the handle has the new value, all other values and kept strings stay |
| PerlStrings.Strings.SetPcs | libgu/gu_pcs.c:231-258 | the same with another string's value; it fails exactly if that has no storage, or if a shared string is set to itself |
| PerlStrings.Strings.AppendCstr | libgu/gu_pcs.c:372-389 | the value is extended, all else stays; it fails exactly if the string is shared and without storage |
| PerlStrings.Strings.AppendPcs | libgu/gu_pcs.c:396-415 | the same with another handle's value, or an empty string to itself; it fails exactly if the string is shared and without storage, if the other has no storage, or if a string that is not empty is appended to itself |
| PerlStrings.Strings.Truncate | libgu/gu_pcs.c:318-340 | the value is cut, all else stays, and never fails |
| PerlStrings.Strings.GetCstr | libgu/gu_pcs.c:269-274 | the C string returned is the value with its terminating zero, and nothing changes |
| PerlStrings.Strings.Edit | libgu/gu_pcs.c:286-302 | a byte changed through the editable C string changes this handle's value only |
| PerlStrings.Strings.Perform | libgu/gu_pcs.c:69-415 | every operation does to the heap what it does to plain values and what it does to who shares storage with whom; it fails exactly if it copies from a string without storage, frees what it is to copy, or copies bytes over themselves |
| PerlStrings.Strings.PerformAll | libgu/gu_pcs.c:69-415 | in every run each variable shows the value it would have if strings were plain values, and each kept C string what it was when kept; a run gets through if and only if, with the sharing that follows from its operations, none of them fails |
| PerlStrings.SoleIff | libgu/gu_pcs.c:172-258 | a variable's object has a reference count of one exactly if, by the operations so far, it shares it with no variable and no kept C string |
| PerlStrings.CopyOfNothingFails | libgu/gu_pcs.c:231-258 | a new string copied into another before it is given a value fails |
| PerlStrings.CopyAfterSetWorks | libgu/gu_pcs.c:231-258 | given a value first, new strings can be copied into and from |
| PerlArray.Pca.Index | libgu/gu_pca.c:112-121 | the element within the array; NULL beyond one past its end and before the storage; and one past the end, or among elements shifted off, a slot that is not the array's, or memory outside it |
| PerlArray.Pca.Pop | libgu/gu_pca.c:125-136 | takes the last element, NULL from an empty array |
| PerlArray.Pca.Push | libgu/gu_pca.c:140-159 | appends, sliding or growing as needed; refuses exactly if every slot is live and the array cannot grow |
| PerlArray.Pca.Shift | libgu/gu_pca.c:163-173 | takes the first element |
| PerlArray.Pca.Unshift | libgu/gu_pca.c:177-195 | prepends; refuses exactly if every slot is live and the array cannot grow |
| PerlArray.Pca.Expand | libgu/gu_pca.c:91-98 | more slots, the same elements |
| PerlArray.UpToMatch | libgu/gu_pcre_split.c:72-92 | what lies before a leftmost match, or after the last, does not contain the separator |
| PerlArray.NextPiece | libgu/gu_pcre_split.c:72-92 | one turn of the loop keeps pieces and separators the string up to the match |
| PerlArray.Split | libgu/gu_pcre_split.c:72-92 | the pieces do not contain the separator, each but the last ends where the first separator begins, and put together with it they are the string |
| PerlArray.PieceLacks | libgu/gu_pcre_split.c:72-92 | a piece that lacks the separator is not something, the separator and something |
| PerlArray.OneSplit | libgu/gu_pcre_split.c:72-92 | a string can be split into such pieces in one way only |
| PerlArray.Join | libgu/gu_pca_join.c:44-55 | the pieces with the separator between them |
| PerlArray.SplitThenJoin | libgu/gu_pca_join.c:44-55 | joining a split with its separator gives the string back, whatever it is |
| NameOrder.CompareTurned | libgu/gu_strcasecmp.c:40-50 | comparing the other way round turns the sign |
| NameOrder.CompareChain | libgu/gu_strcasecmp.c:40-50 | the comparison is transitive |
| NameOrder.CompareEqual | libgu/gu_strcasecmp.c:40-50 | names compare equal exactly if they differ in nothing but case |
| NameOrder.FoldedIff | libgu/gu_strcasecmp.c:40-50 | names differ in case alone exactly if they are letter for letter the same or one small and the other capital |
| NameOrder.RankOrder | libgu/gu_strcasecmp.c:40-50 | characters come in the order of their codes, small letters among the capitals, but those with the eighth bit before all others |
| NameOrder.CompareAt | libgu/gu_strcasecmp.c:40-50 | names compare by the first characters in which they are different in more than case |
| NameFrontEnd.ObeyInsert | browsers/nbp_lookup_ali.c:297-297 | a front end that reads an insert line has the name at that position |
| NameFrontEnd.ObeyDelete | browsers/nbp_lookup_ali.c:313-313 | and after a delete line has lost what was there |
| NameFrontEnd.ListsNoNewline | browsers/nbp_lookup_ali.c:297-326 | nothing a front end lists ever contains a newline |
| NameBackend.SightSorted | browsers/nbp_lookup_ali.c:257-294 | inserting where the search stops keeps the names strictly sorted without two that differ in case only |
| NameBackend.PlaceFinds | browsers/nbp_lookup_ali.c:257-267 | the search ends on a name equal but for case exactly if one is listed |
| NameBackend.SightTracks | browsers/nbp_lookup_ali.c:257-301 | taking in a name keeps the list exactly the names seen since a round, each with the round it was last seen in |
| NameBackend.GuStrcasecmp | libgu/gu_strcasecmp.c:40-50 | the loop computes the comparison |
| NameBackend.SightKeeps | browsers/nbp_lookup_ali.c:239-302 | one lookup result keeps array and front end the same, and the array exact |
| NameBackend.DropsKeep | browsers/nbp_lookup_ali.c:305-324 | the dropping loop leaves exactly what was seen in the last three rounds, and the front end follows |
| NameBackend.RoundKeeps | browsers/nbp_lookup_ali.c:239-327 | after a round the array holds exactly the names seen in the last three; a front end in step before stays in step, with one more round counted and no line it could not obey, if and only if no name found has a newline in it |
| NameBackend.AfterTracks | browsers/nbp_lookup_ali.c:178-328 | after any number of rounds the array is sorted, without duplicates but for case, and holds exactly the last three rounds' names |
| NameBackend.ShownIff | browsers/nbp_lookup_ali.c:178-328 | for every run the front end shows the array after each of its rounds, having counted them all and obeyed every line, if and only if no name found in any of them has a newline in it |
| NameBackend.Backend.Drop | browsers/nbp_lookup_ali.c:305-324 | the loop, on the array itself, drops what the function NameBackend.WithDrops does |
| NameBackend.Backend.Run | browsers/nbp_lookup_ali.c:178-328 | the loops over any number of rounds print exactly the text of NameBackend.After, and leave exactly the last three rounds' names, sorted |
| NameBackend.MoveRightIffLast | browsers/nbp_lookup_ali.c:318-318 | the move as written, of as many bytes as there are records to move, leaves the right records, whatever they are, if and only if there are none to move |
| NumberText.GetDouble | libgu/gu_getdouble.c:32-66 | the loops compute the number a text begins with: blanks, a sign, digits, a point and digits |
| NumberText.PrintFraction | libgu/gu_dtostr.c:71-80 | the four places without the zeros at their end |
| NumberText.PrintWhole | libgu/gu_dtostr.c:85-89 | the whole part before what is there, within the buffer |
| NumberText.Dtostr | libgu/gu_dtostr.c:44-95 | sign, whole part and fraction, or <overflow>, built backwards in 16 bytes |
| NumberText.StrippedValue | libgu/gu_dtostr.c:71-80 | leaving out zeros at the end does not change what a fraction is worth |
| NumberText.ReadingOf | libgu/gu_getdouble.c:32-66 | sign, digits, point and digits are read as what they are worth |
| NumberText.ReadingWithin | libgu/gu_getdouble.c:32-66 | blanks before a number, a sign of either kind, a point without digits on a side and anything after it change nothing, and no digits are 0 |
| NumberText.OverflowIff | libgu/gu_dtostr.c:52-66 | the overflow text is printed exactly for numbers from a milliard on, and a sign exactly for negative ones |
| NumberText.ReadsBackIff | libgu/gu_dtostr.c:44-95 | what is printed reads back within 0.00005 if and only if the fraction is below 0.99995, for every number with a whole part below 10^9; a fraction that rounds up is not carried |
| NumberText.NotCarried | libgu/gu_dtostr.c:62-82 | otherwise the whole part alone is printed |
| NumberText.TextShape | libgu/gu_dtostr.c:44-95 | never more than 15 characters and the zero, and no zero at the end of a fraction |
| DotMatrix.EscapesAgree | filter_dotmatrix/escape.c:46-1054 | from the default graphics modes the two compilations of escape() take the same bytes for every code but ESC ?, unless pass 2 gives up, and leave the same state |
| DotMatrix.FssAgree | filter_dotmatrix/escape.c:1056-1269 | so do the two of fs(), unless pass 1 gives up, the branches of FS Z being the wrong way round |
| DotMatrix.CommandsAgree | filter_dotmatrix/escape.c:46-1269 | so do the two main loops, command by command |
| DotMatrix.AgreeIffTogether | filter_dotmatrix/pass1.c:66-154 | for every file and any two states to start from, the passes split it at the same offsets, up to where one gives up, if and only if they come to no command that they take different lengths of: once apart they never come together again |
| DotMatrix.PartsIffRedefines | filter_dotmatrix/escape.c:341-374 | from the same masks they come to such a command exactly at an ESC ? with both operands |
| DotMatrix.PassesAgreeIff | filter_dotmatrix/pass1.c:66-154 | from the same 8th-bit masks, for every file, the passes split it into commands at the same offsets, up to where one of them gives up, if and only if no ESC ? with both operands comes before that |
| DotMatrix.EighthBitCarriesOver | filter_dotmatrix/main.c:838-869 | the masks are not reset between the passes: a file that ends with ESC > is one command in pass 1 and two in pass 2 |
| DotMatrix.ForcedNeverAgrees | filter_dotmatrix/main.c:838-869 | every file that pass 1 ends with the 8th bit forced on is split differently by pass 2 |
| DotMatrix.ClearedAgreesIff | filter_dotmatrix/main.c:838-869 | a file without high bytes that pass 1 ends with the 8th bit cleared is split the same if and only if no ESC ? with both operands is reached |
| DotMatrix.HighEscapeParts | filter_dotmatrix/main.c:838-869 | with a high byte it need not be: ESC with its 8th bit set is a character in pass 1 and begins a command in pass 2 |
| DotMatrixPasses.Parser.Input | filter_dotmatrix/inbuf.c:42-66 | returns the file's bytes one after another through the buffer, masked, and then EOF for ever |
| DotMatrixPasses.Parser.Rewind | filter_dotmatrix/inbuf.c:71-77 | starts from the beginning |
| DotMatrixPasses.Parser.TabsSet | filter_dotmatrix/tabbing.c:84-136 | a tab list ends after a zero, a stop before the last, the last stop there is room for, or the end of the file |
| DotMatrixPasses.Parser.EatGraphic | filter_dotmatrix/graphics.c:53-72 | eats as many bytes as the mode and pins call for, or what there is |
| DotMatrixPasses.Parser.Graphic | filter_dotmatrix/graphics.c:78-174 | reads as many, or gives up first on an unknown mode or too large a block |
| DotMatrixPasses.Parser.DoEscape | filter_dotmatrix/escape.c:46-1054 | each compilation of escape() takes what DotMatrix.Escape says, of which the rows of DotMatrixCommands state, code by code, how much that is |
| DotMatrixPasses.Parser.DoFs | filter_dotmatrix/escape.c:1056-1269 | and each of fs() |
| DotMatrixPasses.Parser.RunPass | filter_dotmatrix/main.c:447-558 | a pass splits the file as DotMatrix.RunFrom says, of which the rows of DotMatrixCommands state where each command ends, and leaves the state it says |
| DotMatrixPasses.TwoPasses | filter_dotmatrix/main.c:838-869 | main(): both passes over a file agree if and only if they come to no command of different lengths; that is, if and only if no ESC ? with both operands is reached when pass 1 leaves the 8th bit alone, or cleared and there are no high bytes; and never when it leaves the 8th bit forced on |
| DotMatrixCommands.Characters | filter_dotmatrix/main.c:447-558 | for every rest of the file, everything but ESC and FS is one byte, and the rest is taken from there |
| DotMatrixCommands.MaskTable | filter_dotmatrix/inbuf.c:42-66 | a byte is read as it is, without its 8th bit after ESC =, and as 128 whatever it is after ESC > |
| DotMatrixCommands.PlainCommand | filter_dotmatrix/escape.c:46-1054 | for every code outside the rows below, with the codes written out: after ESC, the code and its one, two, three or no operands, whatever they are, the rest of the file is taken, from the mask and the graphics modes that the command sets |
| DotMatrixCommands.ChoosingCommand | filter_dotmatrix/escape.c:406-436 | ESC C has a second operand after a zero, ESC e after 0 or 1 as a number or a digit |
| DotMatrixCommands.ModeCommand | filter_dotmatrix/escape.c:341-374 | ESC ? takes one operand in pass 1 and two in pass 2, which then are the new mode of ESC K, L, Y or Z |
| DotMatrixCommands.TabCommand | filter_dotmatrix/tabbing.c:84-136 | ESC B has up to 16 stops and ESC D up to 32, ended by a zero or an earlier stop, and ESC b a channel and, if there is such a channel, 16 stops |
| DotMatrixCommands.GraphicCommand | filter_dotmatrix/escape.c:155-730 | ESC *, K, L, Y, Z and ^ take their mode and two bytes of length, and as many columns of one, three or two bytes, unless pass 2 gives up, exactly on a mode there is none of or more than 8640 bytes |
| DotMatrixCommands.CodeMissing | filter_dotmatrix/escape.c:44-59 | a file may end after its ESC, or before the channel of ESC b |
| DotMatrixCommands.LengthMissing | filter_dotmatrix/escape.c:155-161 | or before the length of a graphics command |
| DotMatrixCommands.FsCommand | filter_dotmatrix/escape.c:1056-1269 | the FS codes 3, C, E, I, S and V have one operand and all others but Z none; FS @ resets the graphics modes in both passes |
| DotMatrixCommands.FsGraphic | filter_dotmatrix/escape.c:1234-1248 | FS Z takes two bytes of length and as many columns of three bytes, unless pass 1 gives up, exactly on more than 2880 columns |

## Left out

- Graphics.Graphic: the cursor movement after the block and the printer state that decides where it lands are not modelled.
- PSoutModel.PSout.OpenPage: document structuring comments and IncludeFeature lines are comments to the interpreter and only those of a page are printed here.
- PSoutModel.PSout.Printable: takes characters of one byte above the space, as the parser passes them; font sizes are positive, which the PCL parser does not check.
- PageMachine.InterpName: the prolog's text is not scanned; its operators are given by what their bodies do. Landscape rotation is kept as the page's orientation, not applied to coordinates.
- PclReader.Reader.ParseStream: values are unbounded, so the wrap-around of a Java int in a numeral of seven digits or more is not modelled; what each command does to margins and spacing is not either.
- PclReader.Reader.ParameterizedEsc: only the commands that read data or divide by their value are told apart.
- LinePrinterModel.LinePrinter.OutputLine: underline rules and the Unicode form of the output are not modelled.
- LineFilter.FilterFile: takes files without underscores, since underline rules are not modelled; the readers of UTF-8 and of Fortran carriage control, headers, fonts and the choice of point size are not modelled. The bytes are read once and not again for the second pass.
- PapCopy.Interface.CopyJob: the idle status requests that are compiled out, status messages and the address cache are not modelled.
- PapCopy.Interface.Session: ends with a job that the printer ended early, where the source goes on with what is left in the pipe; what pprdrv then sends is not modelled.
- ProsSender.Client.CopyJob: the header must fit the send buffer of 4099 bytes, which the source takes for granted by using the result of pros_pack() unchecked; a write that is not taken whole ends the program and is no turn.
- ProsReplies.ReplyHandler: moves the leftover by the length of the message, which the source means; ProsReplies.MoveRightIffNothingLeft says when the source does.
- ProsReplies.ReceiveStream: bodies are at most 4096 bytes, since a longer one never fits the buffer.
- Exceptions.Machine.Run: bodies end by falling through or by raising; a break, goto or return out of a block is not modelled, and gu_exception_debug is off.
- HashTable.Table.Set: a caller does not change a key's bytes while the table holds it; memory is never exhausted.
- HashTable.Traverse: freeing a table is not modelled.
- PerlStrings.Strings.AppendPcs: a memcpy() of bytes over others it still has to copy counts as failing; appending a formatted string and comparing strings are left out, since they add nothing to these.
- PerlStrings.Strings.PerformAll: gu_pcs_grow() by itself is not one of the operations, since it can invalidate a kept C string; PerlStrings.Strings.Grow says when.
- PerlArray.Split: the pattern is a fixed, non-empty string and the regular expression engine is taken to find its leftmost match.
- NameBackend.RoundKeeps: the lookup is a parameter, names come formatted and cut to 99 characters, and a result compares only by the case of ASCII letters.
- NameBackend.Backend.Drop: moves whole records; NameBackend.MoveRightIffLast says when the source does. The last record's text is not freed, which is not modelled.
- NumberText.Dtostr: numbers are reals, not floating point, and their whole part fits an int.
- DotMatrixPasses.Parser.DoEscape: codes that take the same operands in both passes share a branch, and what commands do beyond reading, the 8th bit and the graphics modes is not modelled.
- DotMatrixPasses.Parser.Input: the file is a regular file, so a read() that returns less than a full buffer is the last.
- The line buffer and PostScript writer of the dot matrix filter (filter_dotmatrix/linebuf.c, filter_dotmatrix/postscript.c): the procset is not part of this model.
- Input and output, clocks, sockets and signals appear only as the turns of the two protocol loops.
- Option parsing, fonts, encodings, page geometry, the IPP server and the other interfaces add nothing to the claims above.
