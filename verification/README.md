# A verified model of the server's protocols and of the Google Test core bundled with it

The repository holds a small multi-threaded web server in C++ and, for its tests, the sources of Google
Test. This project models the parts of both where the behaviour is hard to see from reading the code, and
proves what they keep, for all inputs, all runs or all interleavings.

| module | what it models |
|---|---|
| `OwnershipSpec`, `LinkedPtr` | the smart pointer whose handles form rings, refining a specification without rings |
| `SimpleRegex` | the simple regular expressions: grammar, language, validator, backtracking matcher, full pattern |
| `TestFilter`, `TestSelection` | the test filter, and which tests are run on which shard |
| `TestRegistry`, `Orders`, `Shuffling` | registration, shuffling and unshuffling through index vectors, and the orders a shuffle gives |
| `ShuffledReport` | what a report says of a shuffled run |
| `EventTrace`, `TestRun`, `SelectedRun` | a whole test run, from the selection of tests to the events all listeners hear |
| `StringLiteral`, `Utf8`, `XmlOutput`, `DeathTestFlag` | printers and encoders, each against the reader that must undo it |
| `PumpParser`, `PumpGrammar` | the recursive-descent parser of the code generator `pump.py`, over its shared token list, and the grammar it decides |
| `DeathTestProtocol` | parent and child of a death test, talking over a pipe |
| `WebServer`, `ServerRuns` | the accept loop, the client threads and the kernel's descriptors as a state machine, and runs of it |
| `ConnectionLifetimes`, `ClientThread` | which connections are reaped and when, and what a client is served |
| `DescriptorOwnership`, `DescriptorLeaks` | who closes which descriptor, and which are left open |
| `PrimeTables` | the sample prime tables |
| `CStrings`, `Division` | searching, splitting, hexadecimal text, an output stream, and a little arithmetic, shared by the others |

Objects that the sources update in place are classes here, and loops are loops; each method is proved
against a function of its inputs or of the old state, and what the sources promise is proved about those
functions. Protocols are state machines whose actions are single system calls or accesses to shared state.
A C string is the sequence of the characters before its terminating NUL.

Where the code and its comments or its intent differ, the model follows the code, and the condition under
which the intent is met is proved exactly:

- the string-literal printer does not break a literal between `\0` and an octal digit (`LiteralRoundTrip`);
- `FullMatch` takes a final escaped dollar for an anchor (`FullMatchIsLanguage`);
- the UTF-8 encoder accepts values up to 0x1FFFFF, its comment says U+10FFFF (`MessageBound`);
- `handleConnection` returns after a failed second read without clearing the active flag; exactly then a
  connection whose thread is over is not reaped, ever (`FlagTellsRead`, `AbandonedIsReached`,
  `ReapedByNextAccept`);
- a download passes its descriptor through a signed `char` and closes what is left of it; so a client can
  lose its socket to the download of another, exactly when some number handed out is the truncation of
  another, which a limit of 256 descriptors rules out (`SafeExactly`, `DescriptorLimit`);
- every directory listing leaves a descriptor open for good, and so does a listing or a download that fails
  (`ListingLeaks`, `LeavesExactly`, `LeftForGood`);
- `ParseElseNode` swallows blank code after an `$if` without `$else` (`PrintParseRoundTrip`,
  `PrintLosesBlank`);
- `ParseNaturalNumber` accepts the 2^31 largest 64-bit values as negative numbers (`ParseNaturalNumber`);
- `GetTestCase(i)` of the registry looks an index up and does not use it, so listeners see the order of
  registration, not of the run (`WalkAsListener`, `ReportShuffled`, `SeedOneReported`);
- a death test case that is registered while the tests are shuffled may be run after others
  (`RegisteringWhileShuffled`, `SeedOneReported`);
- the hybrid prime table and the on-the-fly one differ at -1 (`HybridPrimeTable.GetNextPrime`);
- CDATA sections lose carriage returns to line-end normalization, and are rejected for a character outside
  XML, which the report therefore drops first (`CDataRoundTrip`, `DetailIsRead`).

Check the project with `dafny verify dfyconfig.toml` (Dafny 4.11).

## Model

| member | source | states |
|---|---|---|
| `OwnershipSpec.ReleaseKeeps` | Web_Server_on_Cpp/Web_Server_On_Cpp_Tests/gtest/include/gtest/internal/gtest-linked_ptr.h:194-196 | Letting go of an object keeps every object deleted exactly once: by its last holder, and by nobody while it is held |
| `OwnershipSpec.CaptureKeeps` | Web_Server_on_Cpp/Web_Server_On_Cpp_Tests/gtest/include/gtest/internal/gtest-linked_ptr.h:198-201 | Taking over a raw pointer that was not handed over before keeps that accounting |
| `OwnershipSpec.CopyKeeps` | Web_Server_on_Cpp/Web_Server_On_Cpp_Tests/gtest/include/gtest/internal/gtest-linked_ptr.h:203-209 | Sharing an object keeps that accounting |
| `OwnershipSpec.AlwaysAllowed` | Web_Server_on_Cpp/Web_Server_On_Cpp_Tests/gtest/include/gtest/internal/gtest-linked_ptr.h:142-171 | Whatever the state, NULL or any object that was not handed over before can be, any handle can be shared from, and any destroyed |
| `OwnershipSpec.StepMoves` | Web_Server_on_Cpp/Web_Server_On_Cpp_Tests/gtest/include/gtest/internal/gtest-linked_ptr.h:142-171 | What each operation does to the handles: it moves no other, and after an assignment both hold the object of the second |
| `OwnershipSpec.StepDeletes` | Web_Server_on_Cpp/Web_Server_On_Cpp_Tests/gtest/include/gtest/internal/gtest-linked_ptr.h:194-196 | An operation deletes an object, once, exactly when it takes away the last holder |
| `OwnershipSpec.RunDeletesExactlyOnce` | Web_Server_on_Cpp/Web_Server_On_Cpp_Tests/gtest/include/gtest/internal/gtest-linked_ptr.h:142-171 | After any run of construct, copy, assign, reset and destroy in which a raw pointer is captured once, each captured object is either held and not deleted or unheld and deleted once |
| `OwnershipSpec.NoLeakNoDoubleDelete` | Web_Server_on_Cpp/Web_Server_On_Cpp_Tests/gtest/include/gtest/internal/gtest-linked_ptr.h:143 | Once all handles of a program are destroyed, the deletions are exactly the objects handed over, one each |
| `LinkedPtr.Handle.JoinNew` | Web_Server_on_Cpp/Web_Server_On_Cpp_Tests/gtest/include/gtest/internal/gtest-linked_ptr.h:92-94 | The handle is a ring of one |
| `LinkedPtr.Handle.Join` | Web_Server_on_Cpp/Web_Server_On_Cpp_Tests/gtest/include/gtest/internal/gtest-linked_ptr.h:108-116 | The walk ends, and the handle becomes the last member of the ring it joins |
| `LinkedPtr.Handle.Unlink` | Web_Server_on_Cpp/Web_Server_On_Cpp_Tests/gtest/include/gtest/internal/gtest-linked_ptr.h:120-129 | The walk ends; true exactly for a ring of one, otherwise the other members are a ring without the handle |
| `LinkedPtr.Handle.Depart` | Web_Server_on_Cpp/Web_Server_On_Cpp_Tests/gtest/include/gtest/internal/gtest-linked_ptr.h:194-196 | Refines letting go: all rings stay disjoint and exact, and the object is deleted exactly when no other handle holds it |
| `LinkedPtr.Handle.Capture` | Web_Server_on_Cpp/Web_Server_On_Cpp_Tests/gtest/include/gtest/internal/gtest-linked_ptr.h:198-201 | Refines taking over a raw pointer, with a ring of its own |
| `LinkedPtr.Handle.Copy` | Web_Server_on_Cpp/Web_Server_On_Cpp_Tests/gtest/include/gtest/internal/gtest-linked_ptr.h:203-209 | Refines sharing: into the ring of a non-null object, alone for a null one |
| `LinkedPtr.Handle.constructor` | Web_Server_on_Cpp/Web_Server_On_Cpp_Tests/gtest/include/gtest/internal/gtest-linked_ptr.h:142 | Refines construction from a raw pointer |
| `LinkedPtr.Handle.CopyFrom` | Web_Server_on_Cpp/Web_Server_On_Cpp_Tests/gtest/include/gtest/internal/gtest-linked_ptr.h:146-150 | Refines copy construction |
| `LinkedPtr.Handle.Destroy` | Web_Server_on_Cpp/Web_Server_On_Cpp_Tests/gtest/include/gtest/internal/gtest-linked_ptr.h:143 | Refines destruction |
| `LinkedPtr.Handle.Assign` | Web_Server_on_Cpp/Web_Server_On_Cpp_Tests/gtest/include/gtest/internal/gtest-linked_ptr.h:159-165 | Refines assignment, self-assignment included |
| `LinkedPtr.Handle.Reset` | Web_Server_on_Cpp/Web_Server_On_Cpp_Tests/gtest/include/gtest/internal/gtest-linked_ptr.h:168-171 | Refines reset |
| `LinkedPtr.HeldIffShared` | Web_Server_on_Cpp/Web_Server_On_Cpp_Tests/gtest/include/gtest/internal/gtest-linked_ptr.h:118-124 | The ring of a handle has a second member exactly when another handle holds the same object, so ring length decides deletion |
| `LinkedPtr.ValidIsExactlyOnce` | Web_Server_on_Cpp/Web_Server_On_Cpp_Tests/gtest/include/gtest/internal/gtest-linked_ptr.h:142-171 | In a heap of handles that all operations keep valid, each captured object is either held and not deleted, or held by nobody and deleted once |
| `SimpleRegex.ValidateRegex` | Web_Server_on_Cpp/Web_Server_On_Cpp_Tests/gtest/src/gtest-port.cc:257-311 | Accepts exactly the texts of the grammar: optional caret, atoms each with an optional repetition mark, optional dollar; false on NULL |
| `SimpleRegex.ScanIsGrammar` | Web_Server_on_Cpp/Web_Server_On_Cpp_Tests/gtest/src/gtest-port.cc:266-310 | The scan with its one flag decides the grammar |
| `SimpleRegex.AtomsByCode` | Web_Server_on_Cpp/Web_Server_On_Cpp_Tests/gtest/src/gtest-port.cc:228-247 | What each atom matches, by the code of the character: the classes, the named characters, punctuation after a backslash, a dot for all but the line feed |
| `SimpleRegex.ItemsByCode` | Web_Server_on_Cpp/Web_Server_On_Cpp_Tests/gtest/src/gtest-port.cc:222-224 | After a backslash stands punctuation or one of eleven letters, by itself any character without a meaning of its own |
| `SimpleRegex.ReadingUnique` | Web_Server_on_Cpp/Web_Server_On_Cpp_Tests/gtest/src/gtest-port.cc:257-311 | The grammar is unambiguous, so a valid regex has one language |
| `SimpleRegex.MatchRepetitionAndRegexAtHead` | Web_Server_on_Cpp/Web_Server_On_Cpp_Tests/gtest/src/gtest-port.cc:320-342 | True exactly when some prefix is a word of the repeated atom followed by the rest; ends although it recurs through MatchRegexAtHead |
| `SimpleRegex.MatchRegexAtHead` | Web_Server_on_Cpp/Web_Server_On_Cpp_Tests/gtest/src/gtest-port.cc:347-373 | True exactly when some prefix (the whole string under a dollar) is a word of the regex |
| `SimpleRegex.MatchRegexAnywhere` | Web_Server_on_Cpp/Web_Server_On_Cpp_Tests/gtest/src/gtest-port.cc:383-396 | True exactly when some substring is in the language, pinned to the start by a caret and to the end by a dollar; false on NULL |
| `SimpleRegex.BuildFullPattern` | Web_Server_on_Cpp/Web_Server_On_Cpp_Tests/gtest/src/gtest-port.cc:429-447 | The buffer holds the text with a caret and a dollar added where its first and last character are not these |
| `SimpleRegex.FullPatternReads` | Web_Server_on_Cpp/Web_Server_On_Cpp_Tests/gtest/src/gtest-port.cc:436-445 | The full pattern is valid, and reads as the regex anchored at both ends, except that a final escaped dollar is taken for an anchor |
| `SimpleRegex.RE.constructor` | Web_Server_on_Cpp/Web_Server_On_Cpp_Tests/gtest/src/gtest-port.cc:417-448 | Establishes validity exactly for the grammar, and the full pattern of a valid regex |
| `SimpleRegex.RE.FullMatch` | Web_Server_on_Cpp/Web_Server_On_Cpp_Tests/gtest/src/gtest-port.cc:406-408 | Decides the anchored pattern; false when invalid or on NULL |
| `SimpleRegex.RE.PartialMatch` | Web_Server_on_Cpp/Web_Server_On_Cpp_Tests/gtest/src/gtest-port.cc:412-414 | Decides whether some substring is in the language; false when invalid or on NULL |
| `SimpleRegex.AnchoredMatches` | Web_Server_on_Cpp/Web_Server_On_Cpp_Tests/gtest/src/gtest-port.cc:405-408 | The anchored pattern matches exactly the words of the regex, or, after a final escaped dollar, every string that begins with one |
| `SimpleRegex.FullMatchIsLanguage` | Web_Server_on_Cpp/Web_Server_On_Cpp_Tests/gtest/src/gtest-port.cc:436-445 | FullMatch is whole-string membership for all strings if and only if the last token is not an escaped dollar |
| `TestFilter.PatternMatchesGlob` | Web_Server_on_Cpp/Web_Server_On_Cpp_Tests/gtest/src/gtest.cc:440-455 | The recursive matcher decides the glob before the first colon, a glob matching the strings that can be cut into one part for each of its characters |
| `TestFilter.MatchesFilter` | Web_Server_on_Cpp/Web_Server_On_Cpp_Tests/gtest/src/gtest.cc:457-476 | True exactly when one of the colon-separated globs matches |
| `TestFilter.FilterMatchesTest` | Web_Server_on_Cpp/Web_Server_On_Cpp_Tests/gtest/src/gtest.cc:480-506 | True exactly when some positive glob matches the full name and no negative one does; an empty positive part means everything |
| `TestFilter.EmptyListExcludesNothing` | Web_Server_on_Cpp/Web_Server_On_Cpp_Tests/gtest/src/gtest.cc:490-492 | The empty list matches the empty name only, so it excludes no test |
| `TestFilter.UniversalMatches` | Web_Server_on_Cpp/Web_Server_On_Cpp_Tests/gtest/src/gtest.cc:496-499 | The universal filter matches every name |
| `TestFilter.PlainThenStar` | Web_Server_on_Cpp/Web_Server_On_Cpp_Tests/gtest/src/gtest.cc:440-455 | A text and a star match what begins with the text |
| `TestFilter.StarPlain` | Web_Server_on_Cpp/Web_Server_On_Cpp_Tests/gtest/src/gtest.cc:440-455 | A star and a text match what ends in the text |
| `TestFilter.StarPlainStar` | Web_Server_on_Cpp/Web_Server_On_Cpp_Tests/gtest/src/gtest.cc:440-455 | Between two stars a text matches what has it somewhere |
| `StringLiteral.PrintAsCharLiteralTo` | Web_Server_on_Cpp/Web_Server_On_Cpp_Tests/gtest/src/gtest-printers.cc:142-184 | Appends the escape or the character, and tells how it was written |
| `StringLiteral.CharLiteralRoundTrip` | Web_Server_on_Cpp/Web_Server_On_Cpp_Tests/gtest/src/gtest-printers.cc:142-184 | Between single quotes a C++ reader (section 2.14.3 of ISO/IEC 14882:2011) takes every character back, both quotes, the backslash and NUL included |
| `StringLiteral.PlainCharacters` | Web_Server_on_Cpp/Web_Server_On_Cpp_Tests/gtest/src/gtest-printers.cc:171-176 | Printable ASCII is written as it is, a backslash and the quote of the literal apart |
| `StringLiteral.CharTextPrintable` | Web_Server_on_Cpp/Web_Server_On_Cpp_Tests/gtest/src/gtest-printers.cc:171-181 | A character is written as a hexadecimal escape exactly when it is not printable ASCII, NUL and the codes 7 to 13 apart |
| `StringLiteral.PrintAsStringLiteralTo` | Web_Server_on_Cpp/Web_Server_On_Cpp_Tests/gtest/src/gtest-printers.cc:188-206 | The same inside a string literal, where the two quotes trade places |
| `StringLiteral.PrintCharsAsStringTo` | Web_Server_on_Cpp/Web_Server_On_Cpp_Tests/gtest/src/gtest-printers.cc:255-271 | Appends the literal, broken in two between a hexadecimal escape and a hexadecimal digit |
| `StringLiteral.LiteralPrintable` | Web_Server_on_Cpp/Web_Server_On_Cpp_Tests/gtest/src/gtest-printers.cc:255-271 | All that is written is printable ASCII |
| `StringLiteral.LiteralUnbroken` | Web_Server_on_Cpp/Web_Server_On_Cpp_Tests/gtest/src/gtest-printers.cc:259-270 | One literal is written where no hexadecimal escape comes before a hexadecimal digit |
| `CStrings.FormatHexDenotes` | Web_Server_on_Cpp/Web_Server_On_Cpp_Tests/gtest/src/gtest.cc:1642-1647 | The hexadecimal text denotes the number it was made from |
| `CStrings.FormatHexCanonical` | Web_Server_on_Cpp/Web_Server_On_Cpp_Tests/gtest/src/gtest.cc:1642-1647 | in upper-case digits, with no zero in front |
| `StringLiteral.ReadPrinted` | Web_Server_on_Cpp/Web_Server_On_Cpp_Tests/gtest/src/gtest-printers.cc:259-270 | A C++ reader (section 2.14.5 of ISO/IEC 14882:2011) always accepts the printed text, and reads it as the characters with octal digits swallowed after a NUL; the break is what keeps a hexadecimal escape apart |
| `StringLiteral.RereadFaithful` | Web_Server_on_Cpp/Web_Server_On_Cpp_Tests/gtest/src/gtest-printers.cc:144-146 | What is read is the original if and only if no NUL is directly before an octal digit, and shorter otherwise |
| `StringLiteral.LiteralRoundTrip` | Web_Server_on_Cpp/Web_Server_On_Cpp_Tests/gtest/src/gtest-printers.cc:250-271 | Printing and reading back gives the original array if and only if no NUL is directly before an octal digit |
| `Utf8.CodePointToUtf8` | Web_Server_on_Cpp/Web_Server_On_Cpp_Tests/gtest/src/gtest.cc:1436-1462 | The shortest sequence that carries the code point, up to 21 bits; nothing for NUL; the message beyond |
| `Utf8.TextUnique` | Web_Server_on_Cpp/Web_Server_On_Cpp_Tests/gtest/src/gtest.cc:1436-1462 | A code point has one text |
| `Utf8.TextsPrefixFree` | Web_Server_on_Cpp/Web_Server_On_Cpp_Tests/gtest/src/gtest.cc:1400-1407 | On 1 to 0x1FFFFF the encoder is injective and prefix-free |
| `Utf8.DecodeText` | Web_Server_on_Cpp/Web_Server_On_Cpp_Tests/gtest/src/gtest.cc:1436-1462 | A conforming reader (section 3 of RFC 3629) takes a scalar value back out of its text, and rejects that of a surrogate or of a value beyond U+10FFFF |
| `Utf8.MessageBound` | Web_Server_on_Cpp/Web_Server_On_Cpp_Tests/gtest/src/gtest.cc:1433-1439 | The message is given if and only if the value needs more than 21 bits, so the promise of the comment fails exactly above U+10FFFF up to that bound |
| `Utf8.TextBytes` | Web_Server_on_Cpp/Web_Server_On_Cpp_Tests/gtest/src/gtest.cc:1403-1408 | The bytes of the four forms, by quotient and remainder |
| `Utf8.ScalarBits` | Web_Server_on_Cpp/Web_Server_On_Cpp_Tests/gtest/src/gtest.cc:1471-1474 | Surrogates and scalar values by their leading bits |
| `Utf8.WideStringToUtf8` | Web_Server_on_Cpp/Web_Server_On_Cpp_Tests/gtest/src/gtest.cc:1500-1521 | The texts of the code points of the first characters, up to the count or the first NUL |
| `Utf8.PairRange` | Web_Server_on_Cpp/Web_Server_On_Cpp_Tests/gtest/src/gtest.cc:1471-1485 | The masks select exactly the surrogate pairs, and combine them as section 2.2 of RFC 2781 does |
| `Utf8.CodePointsAreUtf16` | Web_Server_on_Cpp/Web_Server_On_Cpp_Tests/gtest/src/gtest.cc:1505-1516 | For 16-bit characters the code points are the UTF-16 reading, and all scalar exactly when there is one |
| `Utf8.TextsRoundTrip` | Web_Server_on_Cpp/Web_Server_On_Cpp_Tests/gtest/src/gtest.cc:1436-1462 | Texts of code points read back exactly when all are scalar values; otherwise they are no UTF-8 at all |
| `Utf8.Utf16RoundTrip` | Web_Server_on_Cpp/Web_Server_On_Cpp_Tests/gtest/src/gtest.cc:1487-1521 | For every NUL-free 16-bit string, UTF-8 decoding of the output equals UTF-16 decoding of the input, errors included |
| `Utf8.Utf32RoundTrip` | Web_Server_on_Cpp/Web_Server_On_Cpp_Tests/gtest/src/gtest.cc:1487-1521 | For 32-bit characters the output decodes to the input exactly when all characters are scalar values |
| `XmlOutput.OutputXmlCDataSection` | Web_Server_on_Cpp/Web_Server_On_Cpp_Tests/gtest/src/gtest.cc:3246-3263 | Appends the section, left for the closing bracket of every section end in the data |
| `XmlOutput.SectionsHoldData` | Web_Server_on_Cpp/Web_Server_On_Cpp_Tests/gtest/src/gtest.cc:3250-3262 | An XML processor (section 2.7 of XML 1.0) takes the sections for the data itself, overlapping runs of brackets included, if all its characters are XML characters (section 2.2), and rejects them otherwise |
| `XmlOutput.CDataRoundTrip` | Web_Server_on_Cpp/Web_Server_On_Cpp_Tests/gtest/src/gtest.cc:3245-3263 | With line ends normalized first (section 2.11), it reads the normalized data exactly when all characters are XML characters, and the very data if and only if there is no carriage return either |
| `XmlOutput.OutputFailureDetail` | Web_Server_on_Cpp/Web_Server_On_Cpp_Tests/gtest/src/gtest.cc:3320-3321 | The detail of a failure is written without its invalid characters |
| `XmlOutput.DetailIsRead` | Web_Server_on_Cpp/Web_Server_On_Cpp_Tests/gtest/src/gtest.cc:3320-3321 | and is read, for every detail, as its valid characters with line ends normalized |
| `XmlOutput.EscapeXml` | Web_Server_on_Cpp/Web_Server_On_Cpp_Tests/gtest/src/gtest.cc:3139-3180 | The concatenation of the escapes of the characters |
| `XmlOutput.RemoveInvalidXmlCharacters` | Web_Server_on_Cpp/Web_Server_On_Cpp_Tests/gtest/src/gtest.cc:3185-3194 | Keeps exactly the valid characters, in order |
| `XmlOutput.AttributeRoundTrip` | Web_Server_on_Cpp/Web_Server_On_Cpp_Tests/gtest/src/gtest.cc:3139-3180 | An escaped attribute (section 3.3.3 of XML 1.0) is accepted, and reads as the text with the invalid characters removed, white space intact |
| `XmlOutput.EscapedUnquoted` | Web_Server_on_Cpp/Web_Server_On_Cpp_Tests/gtest/src/gtest.cc:3148-3168 | and holds no quote of either kind, so that no text can end the value |
| `XmlOutput.EscapedPlain` | Web_Server_on_Cpp/Web_Server_On_Cpp_Tests/gtest/src/gtest.cc:3169-3176 | What needs no escape stands for itself |
| `XmlOutput.TextRoundTrip` | Web_Server_on_Cpp/Web_Server_On_Cpp_Tests/gtest/src/gtest.cc:3139-3180 | In text mode, as the content of an element, the text is read with the invalid characters removed and its line ends normalized |
| `XmlOutput.OnlyXmlCharsAreRead` | Web_Server_on_Cpp/Web_Server_On_Cpp_Tests/gtest/src/gtest.cc:3136-3138 | Why they are removed: no attribute text that holds a character outside XML is accepted |
| `XmlOutput.ValidOnlyIdentity` | Web_Server_on_Cpp/Web_Server_On_Cpp_Tests/gtest/src/gtest.cc:3021-3028 | The text itself is read if and only if it has no character that is dropped: control characters other than tab, line feed and carriage return, and on a signed char those from 0x80 on |
| `XmlOutput.ValidIsXmlChar` | Web_Server_on_Cpp/Web_Server_On_Cpp_Tests/gtest/src/gtest.cc:3021-3028 | Valid are tab, line feed, carriage return and 32 to 127: of the 7-bit characters exactly those that XML has |
| `DeathTestFlag.NatTextDenotes` | Web_Server_on_Cpp/Web_Server_On_Cpp_Tests/gtest/src/gtest-death-test.cc:1121-1125 | The decimal text of a number is a numeral that denotes it |
| `DeathTestFlag.IntsConvert` | Web_Server_on_Cpp/Web_Server_On_Cpp_Tests/gtest/src/gtest-internal-inl.h:1026-1033 | Every conversion gives an int, and every int survives the conversion to 64 bits and back |
| `DeathTestFlag.ParseNaturalNumber` | Web_Server_on_Cpp/Web_Server_On_Cpp_Tests/gtest/src/gtest-internal-inl.h:1002-1040 | Accepts a numeral exactly when its value survives the conversion to int and back, so also the largest 64-bit values, as negative numbers; otherwise leaves the number as it was |
| `DeathTestFlag.SplitString` | Web_Server_on_Cpp/Web_Server_On_Cpp_Tests/gtest/src/gtest-death-test.cc:1208-1223 | The fields hold no delimiter and rejoin to the text |
| `CStrings.SplitUnique` | Web_Server_on_Cpp/Web_Server_On_Cpp_Tests/gtest/src/gtest-death-test.cc:1208-1223 | No other list of fields would do |
| `DeathTestFlag.ParseInternalRunDeathTestFlag` | Web_Server_on_Cpp/Web_Server_On_Cpp_Tests/gtest/src/gtest-death-test.cc:1296-1338 | Not specified for the empty flag; otherwise the four values of exactly four acceptable fields, or an abort |
| `DeathTestFlag.FlagRoundTrip` | Web_Server_on_Cpp/Web_Server_On_Cpp_Tests/gtest/src/gtest-death-test.cc:1121-1125 | The text built for the child parses back to the same four values if and only if the file name has no bar and no number is negative; otherwise the child aborts |
| `PumpParser.TokenList.Pop` | Web_Server_on_Cpp/Web_Server_On_Cpp_Tests/gtest/scripts/pump.py:453-460 | Removes the first token; an error on the wrong kind or an empty list |
| `PumpParser.ParseElseNode` | Web_Server_on_Cpp/Web_Server_On_Cpp_Tests/gtest/scripts/pump.py:475-500 | The imperative parser of else branches does to the shared list what the recursive specification does to a sequence |
| `PumpParser.SpacePassedOver` | Web_Server_on_Cpp/Web_Server_On_Cpp_Tests/gtest/scripts/pump.py:496-498 | Code of spaces, tabs, line feeds, carriage returns, vertical tabs and form feeds is passed over in the search for an else branch |
| `PumpParser.OtherCodeStays` | Web_Server_on_Cpp/Web_Server_On_Cpp_Tests/gtest/scripts/pump.py:496-500 | Code with any other character ends the search, and stays in the list |
| `PumpParser.ParseVarNode` | Web_Server_on_Cpp/Web_Server_On_Cpp_Tests/gtest/scripts/pump.py:511-521 | The same after a variable mark |
| `PumpParser.ParseForNode` | Web_Server_on_Cpp/Web_Server_On_Cpp_Tests/gtest/scripts/pump.py:522-533 | The same after a loop mark |
| `PumpParser.ParseIfNode` | Web_Server_on_Cpp/Web_Server_On_Cpp_Tests/gtest/scripts/pump.py:534-540 | The same after a condition mark |
| `PumpParser.ParseRangeNode` | Web_Server_on_Cpp/Web_Server_On_Cpp_Tests/gtest/scripts/pump.py:541-547 | The same after a range mark |
| `PumpParser.ParseAtomicCodeNode` | Web_Server_on_Cpp/Web_Server_On_Cpp_Tests/gtest/scripts/pump.py:503-561 | The same for atomic code, the token put back where none begins |
| `PumpParser.ParseCodeNode` | Web_Server_on_Cpp/Web_Server_On_Cpp_Tests/gtest/scripts/pump.py:564-574 | The same for a code list |
| `PumpParser.ParsePrinted` | Web_Server_on_Cpp/Web_Server_On_Cpp_Tests/gtest/scripts/pump.py:503-561 | The tokens printed from a node, before any rest, parse to the node with swallowed code gone, and consume no more than it and that code |
| `PumpParser.ParsePrintedElse` | Web_Server_on_Cpp/Web_Server_On_Cpp_Tests/gtest/scripts/pump.py:475-500 | Printed else branches parse back, chains included |
| `PumpParser.ParsePrintedAll` | Web_Server_on_Cpp/Web_Server_On_Cpp_Tests/gtest/scripts/pump.py:564-574 | Printed code lists parse back up to the token that ends them |
| `PumpParser.SwallowAllIdentity` | Web_Server_on_Cpp/Web_Server_On_Cpp_Tests/gtest/scripts/pump.py:496-498 | Nothing is lost if and only if no blank raw code directly follows an if without else, at any depth |
| `PumpParser.PrintParseRoundTrip` | Web_Server_on_Cpp/Web_Server_On_Cpp_Tests/gtest/scripts/pump.py:475-574 | The tokens of any tree are accepted to the end; the tree itself comes back if and only if no blank raw code directly follows an if without else |
| `PumpGrammar.AllSpelled` | Web_Server_on_Cpp/Web_Server_On_Cpp_Tests/gtest/scripts/pump.py:564-574 | Whatever code list is accepted, the tokens consumed spell its tree, and what is left over begins no code, blank code included |
| `PumpGrammar.AllAccepted` | Web_Server_on_Cpp/Web_Server_On_Cpp_Tests/gtest/scripts/pump.py:564-574 | Every word of the grammar is accepted as the tree it spells, up to the closing mark or the end |
| `PumpGrammar.AcceptsExactlyTheGrammar` | Web_Server_on_Cpp/Web_Server_On_Cpp_Tests/gtest/scripts/pump.py:475-574 | A token list is accepted to its end with a tree if and only if it spells that tree in the grammar, in which an if without else takes the blank code behind it |
| `PumpGrammar.SpellsOneTree` | Web_Server_on_Cpp/Web_Server_On_Cpp_Tests/gtest/scripts/pump.py:475-574 | The grammar is unambiguous |
| `PumpGrammar.AcceptedReprints` | Web_Server_on_Cpp/Web_Server_On_Cpp_Tests/gtest/scripts/pump.py:475-574 | Every accepted tree is well-formed; its own printed tokens give it back if and only if no blank code directly follows an if without else |
| `PumpGrammar.BlankBehindClosed` | Web_Server_on_Cpp/Web_Server_On_Cpp_Tests/gtest/scripts/pump.py:479-482 | Blank code behind a closed word is kept, but the print of the tree does not give it back where the tree has no else of its own |
| `PumpGrammar.ElseCloses` | Web_Server_on_Cpp/Web_Server_On_Cpp_Tests/gtest/scripts/pump.py:479-484 | An else block closes the word, also where it is one if without else |
| `PumpGrammar.PrintLosesBlank` | Web_Server_on_Cpp/Web_Server_On_Cpp_Tests/gtest/scripts/pump.py:475-500 | An accepted list whose tree does not come back from its print: blank code behind an if whose else block is one if without else |
| `DeathTestProtocol.StepKeeps` | Web_Server_on_Cpp/Web_Server_On_Cpp_Tests/gtest/src/gtest-death-test.cc:425-488 | Every system call of parent and child keeps the invariant |
| `DeathTestProtocol.RunKeeps` | Web_Server_on_Cpp/Web_Server_On_Cpp_Tests/gtest/src/gtest-death-test.cc:799-863 | So does every interleaving |
| `DeathTestProtocol.OutcomeIsFate` | Web_Server_on_Cpp/Web_Server_On_Cpp_Tests/gtest/src/gtest-death-test.cc:425-488 | A concluded outcome is DIED exactly when the child wrote nothing, and otherwise that of the reason given to Abort; the read end is closed once; the status is that of the child |
| `DeathTestProtocol.NoHang` | Web_Server_on_Cpp/Web_Server_On_Cpp_Tests/gtest/src/gtest-death-test.cc:842-862 | Something can always happen until the parent is done, and the parent never waits for a child that has ended |
| `DeathTestProtocol.StepsRunOut` | Web_Server_on_Cpp/Web_Server_On_Cpp_Tests/gtest/src/gtest-death-test.cc:842-862 | Every step uses up one of at most twelve |
| `DeathTestProtocol.ParentConcludes` | Web_Server_on_Cpp/Web_Server_On_Cpp_Tests/gtest/src/gtest-death-test.cc:425-488 | So every run ends after at most twelve steps, and one that cannot go on has concluded |
| `DeathTestProtocol.KeptWriteEndHangs` | Web_Server_on_Cpp/Web_Server_On_Cpp_Tests/gtest/src/gtest-death-test.cc:857-858 | Without the close of its own write end the parent would wait for ever on a child that died silently |
| `DeathTestProtocol.StuckIsReached` | Web_Server_on_Cpp/Web_Server_On_Cpp_Tests/gtest/src/gtest-death-test.cc:857-858 | and such a state is reached, for every exit status |
| `DeathTestProtocol.Passed` | Web_Server_on_Cpp/Web_Server_On_Cpp_Tests/gtest/src/gtest-death-test.cc:530-577 | True exactly for a spawned test that died with an accepted status and a captured text that, up to its first NUL, the given RE matches in part; fatal before the conclusion |
| `DeathTestProtocol.PartialMatchDecides` | Web_Server_on_Cpp/Web_Server_On_Cpp_Tests/gtest/src/gtest-death-test.cc:555 | That match is membership of some substring in the language of the pattern, and false for an invalid one |
| `DeathTestProtocol.PassesExactlyWhenDied` | Web_Server_on_Cpp/Web_Server_On_Cpp_Tests/gtest/src/gtest-death-test.cc:530-577 | A run that has ended passes if and only if the child died without a report, its recorded status satisfies the predicate, and the message matches |
| `ConnectionLifetimes.AcceptKeeps` | Web_Server_on_Cpp/Server.cpp:99-103 | Accepting a connection keeps the invariant: list in accept order, holding those not freed; flags cleared only by threads that are done |
| `ConnectionLifetimes.CreateKeeps` | Web_Server_on_Cpp/ClientConnection.cpp:34-40 | Starting its thread keeps it, also when that fails |
| `ConnectionLifetimes.SweepKeeps` | Web_Server_on_Cpp/Server.cpp:67-77 | A turn of the sweep keeps it |
| `ConnectionLifetimes.DestroyKeeps` | Web_Server_on_Cpp/ClientConnection.cpp:42-44 | A step of a destructor keeps it: body, descriptor, thread |
| `ConnectionLifetimes.ThreadKeeps` | Web_Server_on_Cpp/ClientConnection.cpp:50-118 | A step of a client thread keeps it |
| `ConnectionLifetimes.StepKeeps` | Web_Server_on_Cpp/Server.cpp:85-108 | Every action keeps it |
| `ConnectionLifetimes.RunKeeps` | Web_Server_on_Cpp/Server.cpp:85-108 | Every interleaving keeps it |
| `ConnectionLifetimes.Lifetimes` | Web_Server_on_Cpp/Server.cpp:85-108 | In every interleaving accept order is kept, and no thread that still uses its connection finds it freed or in its destructor |
| `ConnectionLifetimes.JoinEnds` | Web_Server_on_Cpp/Thread.h:29-34 | The join in a destructor waits for at most one more step of the thread |
| `ConnectionLifetimes.JoinMayWait` | Web_Server_on_Cpp/Thread.h:29-34 | and a run leads to a destructor that has to wait |
| `ConnectionLifetimes.FlagTellsRead` | Web_Server_on_Cpp/ClientConnection.cpp:77-82 | In every run a thread that is over has left the active flag set if and only if its second read failed |
| `ConnectionLifetimes.AbandonedIsReached` | Web_Server_on_Cpp/ClientConnection.cpp:79-82 | For every descriptor there is a run that ends with such a connection, its thread finished |
| `ConnectionLifetimes.AbandonedStays` | Web_Server_on_Cpp/ClientConnection.cpp:79-82 | A connection whose thread is over with the flag set, or could not be started, stays in the list for ever |
| `ConnectionLifetimes.SweepErases` | Web_Server_on_Cpp/Server.cpp:67-77 | A sweep erases every connection whose flag was clear when it began, whatever the threads do meanwhile |
| `ConnectionLifetimes.SweepStepsRunOut` | Web_Server_on_Cpp/Server.cpp:67-77 | The main thread takes at most six steps for each connection in the list, whatever the client threads do |
| `ConnectionLifetimes.SweepEnds` | Web_Server_on_Cpp/Server.cpp:67-77 | Every sweep can be brought to the end of the list: by the main thread, and the last step of a thread it joins |
| `ConnectionLifetimes.ReapedUnlessReadFailed` | Web_Server_on_Cpp/Server.cpp:67-77 | A connection whose thread is over is gone after the next whole sweep if and only if the second read of its thread did not fail; otherwise it never goes |
| `ConnectionLifetimes.TurnErases` | Web_Server_on_Cpp/Server.cpp:85-108 | Every turn of the accept loop sweeps: whatever has its flag clear when a client is accepted is gone when the next one can be |
| `ConnectionLifetimes.ReapedByNextAccept` | Web_Server_on_Cpp/Server.cpp:105 | A connection whose thread is over when a client is accepted is gone when the next one can be, if and only if the second read of its thread did not fail |
| `ConnectionLifetimes.AcceptsAgain` | Web_Server_on_Cpp/Server.cpp:85-108 | From every state that is reached the loop can come to accept the next client, whether or not a thread is started for the last |
| `ConnectionLifetimes.StartedUnlessFailed` | Web_Server_on_Cpp/ClientConnection.cpp:34-40 | Once the loop has gone on, the thread of a connection has been started if and only if its creation did not fail |
| `ConnectionLifetimes.AnyNumber` | Web_Server_on_Cpp/Server.cpp:142 | Whatever asks the kernel for a descriptor may fail, or get any free number |
| `ConnectionLifetimes.EndsByException` | Web_Server_on_Cpp/ClientConnection.cpp:84-115 | The process ends early if and only if a first read fails or the answer to a rejected request cannot be sent, and that is its last step |
| `ClientThread.ThreadServes` | Web_Server_on_Cpp/ClientConnection.cpp:50-187 | In every interleaving the calls of a thread that has ended make up one service: what it reads, how it answers, listings and downloads included, when it closes its socket and when it clears the flag |
| `DescriptorOwnership.AcceptKeepsFds` | Web_Server_on_Cpp/Server.cpp:99-103 | While no number handed out for a file or directory is the truncation of another, accepting keeps every descriptor with its one owner |
| `DescriptorOwnership.DestroyKeepsFds` | Web_Server_on_Cpp/FileDescriptor.cpp:67-72 | So does a step of a destructor |
| `DescriptorOwnership.ThreadKeepsFds` | Web_Server_on_Cpp/ClientConnection.cpp:50-187 | So does a step of a client thread, its directories and downloads included |
| `DescriptorOwnership.RunKeepsFds` | Web_Server_on_Cpp/Server.cpp:85-108 | So does every interleaving |
| `DescriptorOwnership.DescriptorSafety` | Web_Server_on_Cpp/FileDescriptor.cpp:67-72 | Then in every interleaving a socket stays open under its number until its own connection closes it, none is ended twice, and each accepted one is ended once when its connection is freed |
| `DescriptorOwnership.UnsafeIsReached` | Web_Server_on_Cpp/ClientConnection.cpp:173-181 | If a number is handed out and also what a signed char leaves of it, a run loses the socket of a third client |
| `DescriptorOwnership.SafeExactly` | Web_Server_on_Cpp/DownloadFile.cpp:23-26 | Safety holds in every interleaving if and only if no number that is returned for a file or directory is the truncation of another |
| `DescriptorOwnership.DescriptorLimit` | Web_Server_on_Cpp/DownloadFile.cpp:23-26 | When any number below a limit is handed out, that is a limit of at most 256 |
| `DescriptorOwnership.TruncatedIs` | Web_Server_on_Cpp/DownloadFile.cpp:23-26 | The truncation is the value in a signed char that differs by a multiple of 256 |
| `DescriptorLeaks.LeavesExactly` | Web_Server_on_Cpp/ClientConnection.cpp:155-187 | A thread that is over has left a file or directory open if and only if it opened a directory for a listing, or a listing or the sending of a file failed |
| `DescriptorLeaks.LeftForGood` | Web_Server_on_Cpp/ClientConnection.cpp:155-187 | What is left open stays open for the rest of every run, after its connection is freed too |
| `DescriptorLeaks.ListingLeaks` | Web_Server_on_Cpp/ViewContentDir.cpp:18 | So every listing leaves a descriptor open for good |
| `TestRegistry.ShuffleRange` | Web_Server_on_Cpp/Web_Server_On_Cpp_Tests/gtest/src/gtest-internal-inl.h:311-328 | The elements of the range come in the order that the generator draws, the generator moves on as often, and no other element moves |
| `Shuffling.RangeIsArranged` | Web_Server_on_Cpp/Web_Server_On_Cpp_Tests/gtest/src/gtest-internal-inl.h:322-327 | The turns of the loop give the range in the order drawn for it, a rearrangement |
| `Shuffling.NextStateIs` | Web_Server_on_Cpp/Web_Server_On_Cpp_Tests/gtest/src/gtest.cc:291-293 | The generator in the usual form: times 1103515245 plus 12345, modulo the range |
| `Shuffling.NextStateInjective` | Web_Server_on_Cpp/Web_Server_On_Cpp_Tests/gtest/src/gtest.cc:291-293 | No two states have the same successor, so no state is ever forgotten |
| `Shuffling.EveryOrderOnce` | Web_Server_on_Cpp/Web_Server_On_Cpp_Tests/gtest/src/gtest-internal-inl.h:320-327 | The shuffle favours no order: each order of distinct elements comes from exactly one list of draws |
| `Shuffling.StaysInOrder` | Web_Server_on_Cpp/Web_Server_On_Cpp_Tests/gtest/src/gtest-internal-inl.h:320-327 | Nothing moves if and only if every draw takes the last element there is |
| `TestRegistry.TestCase.AddTestInfo` | Web_Server_on_Cpp/Web_Server_On_Cpp_Tests/gtest/src/gtest.cc:2423-2426 | Appends the test with the next index, whether the test case is shuffled or not |
| `TestRegistry.TestCase.ShuffleTests` | Web_Server_on_Cpp/Web_Server_On_Cpp_Tests/gtest/src/gtest.cc:2463-2465 | The indices are arranged as the generator draws, and stay a permutation |
| `TestRegistry.TestCase.UnshuffleTests` | Web_Server_on_Cpp/Web_Server_On_Cpp_Tests/gtest/src/gtest.cc:2468-2472 | Restores the order of registration |
| `TestRegistry.TestCase.GetMutableTestInfo` | Web_Server_on_Cpp/Web_Server_On_Cpp_Tests/gtest/src/gtest.cc:2416-2419 | The test in a place of the run order; NULL out of range |
| `TestRegistry.UnitTestImpl.GetTestCase` | Web_Server_on_Cpp/Web_Server_On_Cpp_Tests/gtest/src/gtest.cc:4173-4206 | Finds the test case of the name, or inserts a new one, a death test case after the last so far; names stay distinct; death test cases stay first, if not shuffled, and otherwise exactly under the condition of RegisteringWhileShuffled |
| `TestRegistry.DeathTestNames` | Web_Server_on_Cpp/Web_Server_On_Cpp_Tests/gtest/src/gtest.cc:158 | Death test cases are those whose name ends in DeathTest or has DeathTest/ in it |
| `TestRegistry.UnitTestImpl.Register` | Web_Server_on_Cpp/Web_Server_On_Cpp_Tests/gtest/src/gtest.cc:4185-4205 | The insertion, with the index vector |
| `TestRegistry.UnitTestImpl.FindTestCase` | Web_Server_on_Cpp/Web_Server_On_Cpp_Tests/gtest/src/gtest.cc:4178-4183 | The test case of that name, or none |
| `TestRegistry.UnitTestImpl.AddTestInfo` | Web_Server_on_Cpp/Web_Server_On_Cpp_Tests/gtest/src/gtest-internal-inl.h:654-674 | Adds the test to the test case of that name, new or not, and to no other; no test is ever in two places |
| `TestRegistry.UnitTestImpl.ShuffleTests` | Web_Server_on_Cpp/Web_Server_On_Cpp_Tests/gtest/src/gtest.cc:4601-4613 | Both blocks of indices, and then the tests of each test case in turn, are arranged as the generator draws; death test cases stay first |
| `TestRegistry.BlocksKeepDeathTestsFirst` | Web_Server_on_Cpp/Web_Server_On_Cpp_Tests/gtest/src/gtest.cc:4602-4607 | Shuffling the two blocks apart keeps both |
| `TestRegistry.UnitTestImpl.UnshuffleTests` | Web_Server_on_Cpp/Web_Server_On_Cpp_Tests/gtest/src/gtest.cc:4616-4623 | Restores the order of registration everywhere |
| `TestRegistry.UnitTestImpl.GetMutableTestCase` | Web_Server_on_Cpp/Web_Server_On_Cpp_Tests/gtest/src/gtest-internal-inl.h:593-596 | The test case in a place of the run order; NULL out of range |
| `TestRegistry.UnitTestImpl.GetTestCaseForListeners` | Web_Server_on_Cpp/Web_Server_On_Cpp_Tests/gtest/src/gtest-internal-inl.h:586-589 | The test case in a place of the registration order: the index is looked up but not used |
| `TestRegistry.RunOrder` | Web_Server_on_Cpp/Web_Server_On_Cpp_Tests/gtest/src/gtest.cc:4599-4613 | Through the indices every test case is reached exactly once, death test cases before all others |
| `Orders.EachReachedOnce` | Web_Server_on_Cpp/Web_Server_On_Cpp_Tests/gtest/src/gtest-internal-inl.h:299-304 | A permutation of indices reaches every item exactly once |
| `TestRegistry.RegisteringWhileShuffled` | Web_Server_on_Cpp/Web_Server_On_Cpp_Tests/gtest/src/gtest.cc:4192-4195 | Registering a death test case while shuffled keeps them first exactly when the place after them holds the index that becomes theirs |
| `TestRegistry.WalkAsListener` | Web_Server_on_Cpp/Web_Server_On_Cpp_Tests/gtest/src/gtest.cc:3390-3393 | A listener that walks the test cases through the accessor sees them in the order of registration, so in the run order, as the comment at 4294 promises, if and only if the two are the same |
| `ShuffledReport.ReportShuffled` | Web_Server_on_Cpp/Web_Server_On_Cpp_Tests/gtest/src/gtest.cc:3390-3393 | After a shuffle the report is in the run order if and only if every number drawn took the last place |
| `ShuffledReport.SeedOneReported` | Web_Server_on_Cpp/Web_Server_On_Cpp_Tests/gtest/src/gtest.cc:4294-4296 | A registry built with seed 1 and two test cases is reported in the wrong order, and a death test case registered then comes to be run after another one |
| `TestSelection.Classify` | Web_Server_on_Cpp/Web_Server_On_Cpp_Tests/gtest/src/gtest.cc:4473-4493 | Records whether the test is disabled and whether it matches, and tells whether it is runnable |
| `TestSelection.RunnableNames` | Web_Server_on_Cpp/Web_Server_On_Cpp_Tests/gtest/src/gtest.cc:4473-4493 | A test is runnable exactly when the filter selects its full name and either the flag admits disabled tests or neither its name nor that of its case begins with DISABLED_ or has /DISABLED_ in it |
| `TestSelection.FilterCase` | Web_Server_on_Cpp/Web_Server_On_Cpp_Tests/gtest/src/gtest.cc:4469-4503 | Marks the tests of one case, and the case exactly when one of them is selected |
| `TestSelection.FilterTests` | Web_Server_on_Cpp/Web_Server_On_Cpp_Tests/gtest/src/gtest.cc:4455-4506 | The marks of all tests are the selection of the shard among the runnable ones, the count returned is theirs, and a case is to run exactly when one of its tests is; without sharding the marks are those of the runnable tests |
| `TestSelection.UnshardedSelectsAll` | Web_Server_on_Cpp/Web_Server_On_Cpp_Tests/gtest/src/gtest.cc:4493-4496 | Without sharding the selection is exactly the runnable tests |
| `TestSelection.EachOnceIs` | Web_Server_on_Cpp/Web_Server_On_Cpp_Tests/gtest/src/gtest-internal-inl.h:654-674 | What registration keeps is what the filter relies on: no test is listed twice |
| `TestSelection.OnOneShard` | Web_Server_on_Cpp/Web_Server_On_Cpp_Tests/gtest/src/gtest.cc:4444-4446 | Each runnable test is selected on exactly one shard, any other on none |
| `TestSelection.ShardSizeIs` | Web_Server_on_Cpp/Web_Server_On_Cpp_Tests/gtest/src/gtest.cc:4444-4446 | A shard has the quotient of runnable tests and shards, and one more when its index is below the remainder |
| `TestSelection.ShardsBalanced` | Web_Server_on_Cpp/Web_Server_On_Cpp_Tests/gtest/src/gtest.cc:4444-4446 | Shard sizes differ by at most one |
| `TestSelection.ShardsCoverAll` | Web_Server_on_Cpp/Web_Server_On_Cpp_Tests/gtest/src/gtest.cc:4460-4464 | The shard sizes add up to the number of runnable tests |
| `TestRun.Repeater.Forward` | Web_Server_on_Cpp/Web_Server_On_Cpp_Tests/gtest/src/gtest.cc:2957-2964 | Tells the event to all listeners in order, while forwarding is on |
| `TestRun.Repeater.ForwardReversed` | Web_Server_on_Cpp/Web_Server_On_Cpp_Tests/gtest/src/gtest.cc:2967-2974 | Tells it to all listeners in reverse order |
| `EventTrace.BracketedIffNested` | Web_Server_on_Cpp/Web_Server_On_Cpp_Tests/gtest/src/gtest.cc:2976-2986 | What all listeners hear, as one sequence, is well-bracketed if and only if the events nest |
| `EventTrace.EachListenerIsToldAll` | Web_Server_on_Cpp/Web_Server_On_Cpp_Tests/gtest/src/gtest.cc:2957-2974 | Every listener hears every event, once and in order |
| `TestRun.RunTest` | Web_Server_on_Cpp/Web_Server_On_Cpp_Tests/gtest/src/gtest.cc:2300-2341 | Sends start and end of a selected test, with nothing but part results between, and nothing for any other |
| `TestRun.RunTests` | Web_Server_on_Cpp/Web_Server_On_Cpp_Tests/gtest/src/gtest.cc:2444-2446 | Runs the tests in the order of the indices |
| `TestRun.RunCase` | Web_Server_on_Cpp/Web_Server_On_Cpp_Tests/gtest/src/gtest.cc:2429-2454 | Encloses them in the events of the test case, if it is to run |
| `TestRun.RunCases` | Web_Server_on_Cpp/Web_Server_On_Cpp_Tests/gtest/src/gtest.cc:4313-4316 | Runs the test cases in the order of the indices |
| `TestRun.RunTesting` | Web_Server_on_Cpp/Web_Server_On_Cpp_Tests/gtest/src/gtest.cc:4304-4324 | Set-up and tear-down of the environments around them; no test case after a fatal failure in the set-up |
| `TestRun.RunIteration` | Web_Server_on_Cpp/Web_Server_On_Cpp_Tests/gtest/src/gtest.cc:4284-4348 | Shuffles with the seed of the iteration if there is something to run and shuffling is on, runs every test case and every test once in exactly the orders that gives, death test cases first, and restores the order of registration |
| `TestRun.HaveRunAt` | Web_Server_on_Cpp/Web_Server_On_Cpp_Tests/gtest/src/gtest.cc:4292-4298 | Iteration k of a run is in the orders drawn for its seed, the first from the orders before the run and every other from the order of registration |
| `TestRun.SeedsCycle` | Web_Server_on_Cpp/Web_Server_On_Cpp_Tests/gtest/src/gtest-internal-inl.h:148-157 | Its seed is the first plus k, counted through 1 to 99999 |
| `TestRun.RunIterations` | Web_Server_on_Cpp/Web_Server_On_Cpp_Tests/gtest/src/gtest.cc:4284-4348 | After any number of iterations only the program is open, and each has run in the orders drawn for its own seed |
| `TestRun.RunAllTests` | Web_Server_on_Cpp/Web_Server_On_Cpp_Tests/gtest/src/gtest.cc:4222-4353 | The whole trace of all listeners is well-bracketed with nothing left open, for any listeners, registry, selection, iterations and user code, and lists every iteration, case and test that was to run, in the order drawn for the iteration |
| `SelectedRun.OrderIrrelevant` | Web_Server_on_Cpp/Web_Server_On_Cpp_Tests/gtest/src/gtest.cc:4601-4613 | However an iteration is shuffled, the tests to be run in it are the same, each as often |
| `SelectedRun.IterationStartsChosen` | Web_Server_on_Cpp/Web_Server_On_Cpp_Tests/gtest/src/gtest.cc:4284-4348 | An iteration starts exactly the marked tests, each once, and none after a fatal failure in the set-up |
| `SelectedRun.Select` | Web_Server_on_Cpp/Web_Server_On_Cpp_Tests/gtest/src/gtest.cc:4455-4506 | After the filter the registry holds the selection of the shard, and test cases are to run exactly when one of their tests is |
| `SelectedRun.RunSelected` | Web_Server_on_Cpp/Web_Server_On_Cpp_Tests/gtest/src/gtest.cc:4245-4353 | Filter and run together: the trace is well-bracketed, and every iteration starts exactly the tests that the filter, the disabled mark and the shard select, each of them once, in the orders drawn for its seed |
| `PrimeTables.OnTheFlyPrimeTable.IsPrime` | Web_Server_on_Cpp/Web_Server_On_Cpp_Tests/gtest/samples/prime_tables.h:58-67 | Decides the mathematical primes, for every int |
| `PrimeTables.OnTheFlyPrimeTable.GetNextPrime` | Web_Server_on_Cpp/Web_Server_On_Cpp_Tests/gtest/samples/prime_tables.h:69-75 | Ends for every argument, and returns the least prime above it if that is not negative, else -1 |
| `PrimeTables.PrimeAbove` | Web_Server_on_Cpp/Web_Server_On_Cpp_Tests/gtest/samples/prime_tables.h:69-75 | There is a prime above p, at most p!+1 (Euclid): what the search loop ends by |
| `PrimeTables.TrialDivisionSuffices` | Web_Server_on_Cpp/Web_Server_On_Cpp_Tests/gtest/samples/prime_tables.h:61-66 | No divisor below the square root means none at all |
| `PrimeTables.IsPrime` | Web_Server_on_Cpp/Web_Server_On_Cpp_Tests/gtest/samples/sample1.cc:47-68 | Trial division by 2 and odd numbers, cut off at i > n/i, decides the primes |
| `PrimeTables.OddTrialDivisionSuffices` | Web_Server_on_Cpp/Web_Server_On_Cpp_Tests/gtest/samples/sample1.cc:54-67 | An odd number without a small odd divisor is prime |
| `PrimeTables.PreCalculatedPrimeTable.constructor` | Web_Server_on_Cpp/Web_Server_On_Cpp_Tests/gtest/samples/prime_tables.h:83-86 | The table marks exactly the primes up to max |
| `PrimeTables.PreCalculatedPrimeTable.CalculatePrimesUpTo` | Web_Server_on_Cpp/Web_Server_On_Cpp_Tests/gtest/samples/prime_tables.h:102-114 | The sieve leaves exactly the primes marked |
| `PrimeTables.PreCalculatedPrimeTable.MarkMultiples` | Web_Server_on_Cpp/Web_Server_On_Cpp_Tests/gtest/samples/prime_tables.h:109-112 | The inner loop clears exactly the proper multiples |
| `PrimeTables.PreCalculatedPrimeTable.IsPrime` | Web_Server_on_Cpp/Web_Server_On_Cpp_Tests/gtest/samples/prime_tables.h:89-91 | Prime, and within the table |
| `PrimeTables.PreCalculatedPrimeTable.GetNextPrime` | Web_Server_on_Cpp/Web_Server_On_Cpp_Tests/gtest/samples/prime_tables.h:93-99 | The least prime above p in the table; -1 exactly when there is none |
| `PrimeTables.HybridPrimeTable.constructor` | Web_Server_on_Cpp/Web_Server_On_Cpp_Tests/gtest/samples/sample8_unittest.cc:52-56 | The table is there exactly when not forced on the fly, and valid |
| `PrimeTables.HybridPrimeTable.IsPrime` | Web_Server_on_Cpp/Web_Server_On_Cpp_Tests/gtest/samples/sample8_unittest.cc:62-67 | Decides the primes, with or without the table |
| `PrimeTables.HybridPrimeTable.GetNextPrime` | Web_Server_on_Cpp/Web_Server_On_Cpp_Tests/gtest/samples/sample8_unittest.cc:69-75 | The least prime above every p from 0 on, with or without the table; below 0 the two differ, as stated |
| `PrimeTables.LeastPrimeUnique` | Web_Server_on_Cpp/Web_Server_On_Cpp_Tests/gtest/samples/prime_tables.h:50-52 | so all tables that find a next prime give the same one |

## Left out

- Sockets, `stat`, `sendfile`, directory listings, signals and real `pthread` and `fork` calls: they are abstract steps with nondeterministic results.
- Exceptions that leave `handleConnection` (ClientConnection.cpp:88, 101, 114) end the process, and so the run of `WebServer`.
- In `WebServer` the reads of the flag are taken to be sequentially consistent; the tear-down in `~Server` while threads still run, the loop flag and binding are not modelled. The kernel returns any free number, not the lowest; the other descriptors of the process are not in its table, and a `char` is signed. `sendfile` is taken to fail on a number that is not open or is a socket, and may succeed on any other.
- Server responses, the `%20` loop, HTML listings, option parsing: one-branch or plumbing.
- In `LinkedPtr` the mutex is left out, and a handle and the link inside it are one object; the deletion of the object is recorded in a list, its destructor is not run.
- In `SimpleRegex` strings of SIZE_MAX characters or more are excluded, as the source does; failure messages and the POSIX variant are left out.
- In `StringLiteral` the replacement of trigraphs, which a compiler does before it reads literals, is left out; so are `PrintCharAndCodeTo` and `UniversalPrintCharArray`.
- In `XmlOutput` bytes from 0x80 on are dropped on a signed `char`; platforms with an unsigned one and the rest of the report are not modelled.
- In `Utf8` a `wchar_t` is its unsigned value; NULL strings and the replacement of NULs around it are left out.
- In `DeathTestFlag` the flag on its way through `exec` and the Windows fields are left out.
- In `DeathTestProtocol` the variant that re-executes the program, captured stderr and the texts of messages are left out; the predicate on the status, the pattern and the captured text are parameters.
- In `PumpParser` the tokenizer, token positions, the Python form of expressions, their evaluation and line wrapping are left out; `PumpGrammar` takes from the tokenizer that no closing mark is blank, and where a tree is printed again, no literal dollar.
- In `TestSelection` the environment variables are not parsed; the process has ended earlier on inconsistent ones, so an index is below its total. Counts are unbounded.
- TestRun.RunAllTests: a negative repeat count never ends; `RunIterations` says what holds after each of its iterations. Here the marks are those the registry holds, which `RunSelected` takes from the filter; user code is any number of part results, and listeners are neither added nor removed during the run. The returned verdict, times, the stack trace getter and the seed that is read from a flag are left out.
- Suppression of events in a death test child is the flag alone.
- PrimeTables.OnTheFlyPrimeTable.GetNextPrime: integers are unbounded, so the overflow of `i*i` and of the search near INT_MAX is not modelled.
- The parts of Google Test that generate repetition or that only format: value-parameterized and typed tests, predicate assertions, colour output, help, timing, file paths, floating-point comparison.
