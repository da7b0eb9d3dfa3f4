# ManapiHTTP, verified

A Dafny model of the parts of ManapiHTTP that carry state, with proofs of what they promise.

| files | what they model |
|---|---|
| `Wrappers` | what the others share: optional values, results, bytes |
| `JsonValue`, `JsonBuilderModel`, `JsonBuilder`, `JsonElements`, `JsonChunks` | the streaming JSON builder: a class with the builder's own fields and nested builders, refining a machine that takes one byte at a time |
| `JsonNumbers`, `JsonDocuments` | what the builder reads: number texts exactly, and every JSON document however it is spelled |
| `JsonPrinter`, `JsonLayout`, `JsonRoundTrip`, `JsonEscapes`, `Utf8` | `json::dump`, its layout, and that it and the builder undo each other |
| `JsonMask`, `MaskMeaning`, `MaskCursor` | the mask compiler, the validator of finished values, and the search while a string is streamed |
| `Sha256Spec`, `Sha256Standard`, `Sha256Answer`, `Sha256` | FIPS 180-4, that it is the standard, and the incremental class that refines it |
| `Base64` | section 4 of RFC 4648, and the table loops |
| `RouteTable`, `Router`, `Registrations` | the URI trie, the flat table it refines, and lookups after any registrations |
| `CompressedCache` | the cache of compressed files over every run |
| `ThreadPool` | the deques and every interleaving of workers and callers |
| `FormCodec`, `FormReading`, `BodyReader` | the urlencoded form in both directions, decoding of any text, and the window over transport blocks |
| `Replacers` | the scan for `{{key}}` and the Content-Length that depends on it |
| `HeaderValue`, `HeaderReading` | header values with parameters, and reading any spelling of them |

A `char` or a `bv8` stands for one byte. Errors that the program throws are `Result`, `Option` or a
flag. Loops and objects that the program updates in place are methods and classes, each tied by its
contract to a function on values; the properties are proved about those functions.

Where a promise does not hold of the code, the code is kept and the exact condition is proved:

- A completed builder goes on with its old action, so cutting a text behind its value matters
  (`JsonChunks.CutExact`, at an input `JsonChunks.CutBehindAnArray`).
- Behind a number even spaces in a chunk of their own are an error (`JsonChunks.SpacesBehindValue`).
- Not every text that is read is JSON: a plus sign, a point without digits, a comma before a closing bracket, a key
  without a value (`JsonNumbers.NumberExactly`, `JsonDocuments.DocumentsParse`, `JsonDocuments.WrongSigns`).
- An ASCII byte passes as a UTF-8 continuation byte, so escaping can change what is accepted
  (`JsonEscapes.EscapingKeepsAcceptance`, at an input `JsonEscapes.EscapingCanChangeAcceptance`); the round trip
  says which strings come back.
- The SHA-256 length field is 32 bits wide (`Sha256.CodePadIsPad`).
- `{"": ""}` and strings that are not ASCII do not survive a form (`FormCodec.RoundTrip`).
- `_read_body` hands over the block from its start, not from the index (`BodyReader.HandedExactly`, and at an
  input `BodyReader.HandedFromInside`).
- The replacer scan looks at one character past the end of a file (`Replacers.ScanIsExact`, at an input
  `Replacers.OneBraceShort`), and the Content-Length with it (`Replacers.ContentLength`).
- A found key stands in double braces exactly when it has no closing brace in it (`Replacers.SlotSpells`); with one,
  it is found where a brace is missing (at an input `Replacers.BrokenKeyIsFound`).
- `>=0` on a string mask admits nothing, an upper bound below zero everything (`MaskMeaning.AlternativeKept`, at
  inputs `MaskMeaning.AtLeastZeroAdmitsNothing` and `MaskMeaning.BelowZeroAdmitsAll`); while streaming only the
  second goes wrong (`MaskMeaning.StreamingExact`). Bounds on numbers are not validated
  (`MaskMeaning.NumberBoundsExactly`).
- A type before `[]` in a mask throws for every array but the empty one (`MaskMeaning.SquareBrackets`), and a bracket
  that is not closed can be passed over (`MaskMeaning.UnclosedBrackets`).
- An edit within the resolution of the write time can be served stale: a file is served as recompressed in all
  runs if and only if its edits gave it one content under its write time (`CompressedCache.ServesCurrentExactly`,
  at an input `CompressedCache.SameTimeIsStale`).
- A folder refused on a special page has already made its nodes, and a request that is divided past the end of
  its path can see them (`Registrations.RefusedChangesNothing`, at an input `Registrations.RefusedFolderIsSeen`).
- Header values are written without quotes, so a special character does not come back as it was, and an item after the first with
  an empty value loses its place (`HeaderValue.RoundTrip`).

`dafny verify dfyconfig.toml` checks the project.

## Model

| member | source | states |
|---|---|---|
| `JsonBuilder.Builder.Feed` | src/ManapiJsonBuilder.cpp:32-37 | operator<< on a chunk does to the object, and to every builder nested in it, exactly what the byte machine does to the suspended value; it throws exactly when the machine fails; every index into the chunk is in range because as many bytes are left before `end_cut` as in the text |
| `JsonBuilder.Builder.Parse` | src/ManapiJsonBuilder.cpp:71-89 | `_parse` ends, takes a prefix of the text and stops exactly where the machine stops: at an error, at the end, or behind the closed value; positions advance by the bytes taken |
| `JsonBuilder.Builder.Get` | src/ManapiJsonBuilder.cpp:43-57 | get() hands out what the machine says the value is, ends an unfinished number or word, and is an error for any other unfinished value; after a closed value the object is blank again, but for the word of a literal |
| `JsonBuilder.Builder.BuildString` | src/ManapiJsonBuilder.cpp:136-291 | the string action run to the end of its value or of the chunk equals the machine folded over the rest, through escapes, \u registers and the continuation counter |
| `JsonBuilder.Builder.BuildNumeric` | src/ManapiJsonBuilder.cpp:293-413 | the number action equals the machine that JsonNumbers.NumberExactly describes, and changes to a word |
| `JsonBuilder.Builder.BuildNumericString` | src/ManapiJsonBuilder.cpp:415-468 | the word action equals the machine: true, false, null or an error at the first terminator, which is left unused |
| `JsonBuilder.Builder.ContainerByte` | src/ManapiJsonBuilder.cpp:470-667 | one byte of an array or object with no element under construction: brackets, delimiters, or a new nested builder that gets the byte |
| `JsonBuilder.Builder.RunItem` | src/ManapiJsonBuilder.cpp:470-494 | the head of the container actions: the nested builder takes what it can, with the positions of both objects kept aligned |
| `JsonBuilder.Builder.FinishItem` | src/ManapiJsonBuilder.cpp:470-494 | a finished element goes into its parent as the machine absorbs it: array items in order, keys only strings, no key twice |
| `JsonBuilder.ParseChunks` | src/ManapiJson.cpp:223-227 | a new builder given any chunks and asked for its value gives what the machine gives for those chunks |
| `JsonChunks.ChunkIndependence` | src/ManapiJsonBuilder.cpp:71-89 | for every state and every list of chunks in which no byte follows the completed value, or the value is closed in the last chunk, the chunks leave the same state, at every depth of nesting, or the same error as the whole text |
| `JsonChunks.CutExact` | src/ManapiJsonBuilder.cpp:71-97 | cutting a text after `s` changes nothing, whatever follows, if and only if `s` does not complete the value: a completed builder keeps its old action |
| `JsonChunks.CutBehindAnArray` | src/ManapiJsonBuilder.cpp:71-97 | behind `[]` another bracket is an error in the same chunk and is taken in the next one |
| `JsonChunks.SpacesBehindValue` | src/ManapiJsonBuilder.cpp:81-89 | spaces in a chunk of their own behind a value change nothing, except that behind a number they are an error, and behind a string if one of them is not a blank |
| `JsonChunks.TruncationIsNoValue` | src/ManapiJsonBuilder.cpp:43-57 | every nonempty strict beginning of a complete string, array or object, in any chunks, is taken without error and get() then throws |
| `JsonChunks.CutShortIsNoValue` | src/ManapiJsonBuilder.cpp:270-276 | any text that opens a string, array or object and does not close it is never a value |
| `JsonElements.FoldElement` | src/ManapiJsonBuilder.cpp:470-494 | running a nested builder inside a container is running it alone and wrapping the result: the parent never looks past its child |
| `JsonNumbers.NumberExactly` | src/ManapiJsonBuilder.cpp:293-372 | the whole behaviour on numbers, from the text alone: a byte behind a number text continues it, closes it as the decimal, the integer or the null that it stands for, or is an error; a point after a point or an exponent, a second sign, a digit behind a leading zero and anything but a digit behind a minus are errors |
| `JsonNumbers.DecimalsExactly` | src/ManapiJsonBuilder.cpp:341-394 | a text that begins like a number is read as the decimal with this text if and only if it is a number text with a point or an exponent in it |
| `JsonNumbers.NumberParses` | src/ManapiJsonBuilder.cpp:374-413 | a number text, cut anywhere, is read as what it stands for |
| `JsonNumbers.JsonNumbersAreNumbers` | src/ManapiJsonBuilder.cpp:293-372 | an optional sign, digits without a leading zero, a fraction and an exponent are a number text, and a decimal exactly when there is a fraction or an exponent |
| `JsonNumbers.IntegersComeBack` | src/ManapiJsonBuilder.cpp:396-404 | every printed integer, cut anywhere, is read as itself, or as the nearest one of 64 bits |
| `JsonNumbers.ReadShowInt` | src/ManapiJsonBuilder.cpp:383-404 | reading the digits of an integer, with a minus or a plus sign, gives the integer or saturates |
| `JsonNumbers.ShownDigits` | src/ManapiJson.cpp:251-254 | the decimal text of a number is that of its tenth and its last digit |
| `JsonDocuments.DocumentsParse` | src/ManapiJsonBuilder.cpp:32-577 | the parser is right on every JSON document: any tree of numbers, words, strings in any spelling, arrays and objects with keys in any order, laid out with any spaces and cut into chunks, is read as the value of the tree, or gives its first error, a key that is no string or one that comes again |
| `JsonDocuments.ObjectMeans` | src/ManapiJsonBuilder.cpp:500-530 | an object document means its keys with their values, each once and in key order, if its keys differ, and the duplicate-key error if they do not |
| `JsonDocuments.OtherWords` | src/ManapiJsonBuilder.cpp:415-468 | any other word, up to a space, a comma or a closing bracket, is an error, and so is none at all |
| `JsonDocuments.WrongSigns` | src/ManapiJsonBuilder.cpp:500-667 | behind an item, a key or a value only spaces, the right sign and the right bracket are taken; a bracket behind a key or a comma closes an object only if it is empty, and one behind a colon closes it without the key |
| `JsonDocuments.WrongCharacters` | src/ManapiJsonBuilder.cpp:142-290 | in a string five control characters, letters that are no escape and continuation bytes out of place are errors |
| `JsonDocuments.SpacesAreNull` | src/ManapiJsonBuilder.cpp:43-57 | a text of spaces, or none, is null |
| `JsonDocuments.EscapesByLetter` | src/ManapiUtils.cpp:110-143 | quotes, backslashes, slashes and five control characters are printed by the letter that stands for them in RFC 8259, everything else as it is |
| `JsonPrinter.DumpJson` | src/ManapiJson.cpp:233-354 | the appending loops of dump() produce the text that JsonLayout lays out, for every indentation |
| `JsonPrinter.EscapeString` | src/ManapiUtils.cpp:110-143 | escape_string produces the escaped text |
| `JsonPrinter.DumpArray` | src/ManapiJson.cpp:312-345 | items in order, each at the deeper indentation |
| `JsonPrinter.DumpObject` | src/ManapiJson.cpp:267-310 | entries in key order, each key escaped and quoted |
| `JsonLayout.DumpsLines` | src/ManapiJson.cpp:233-354 | the printed text is the lines that the tree alone gives: every element and every bracket on its own, behind `first + depth * spaces` blanks, a comma behind each but the last; without indentation the lines follow each other with one blank behind each comma |
| `JsonLayout.Indented` | src/ManapiJson.cpp:234-239 | cut at its line breaks, an indented text is exactly those lines, and the blanks at the head of each number what its depth in the tree asks for |
| `JsonLayout.OnOneLine` | src/ManapiJson.cpp:234-239 | without indentation there is no line break |
| `JsonEscapes.RoundTrip` | src/ManapiJsonBuilder.cpp:136-291 | for every tree of null, bool, 64-bit integers, decimals that hold a decimal text, strings, arrays and objects, every indentation and every way of cutting the printed text: parsing gives the tree back if all its strings pass the reader, and an error if one does not |
| `JsonEscapes.RoundTripUtf8` | src/ManapiJson.cpp:233-354 | so for well-formed UTF-8 (section 3 of RFC 3629) printing and reading is the identity |
| `JsonEscapes.TruncatedDump` | src/ManapiJson.cpp:233-354 | no nonempty strict beginning of a printed string, array or object is ever a value, in any chunks |
| `JsonEscapes.EscapesAreUtf8` | src/ManapiJsonBuilder.cpp:168-222 | a string written in \uXXXX escapes, in any chunks, reads as the concatenated UTF-8 encodings of its code points |
| `JsonEscapes.EscapeIsUtf8` | src/ManapiJsonBuilder.cpp:185-222 | the bytes pushed for four hexadecimal digits are the encoding of the code point by section 3 of RFC 3629 |
| `JsonEscapes.WellFormedScans` | src/ManapiJsonBuilder.cpp:902-927 | every well-formed UTF-8 string, once escaped, passes the continuation counter |
| `JsonEscapes.CountIsOfLeadingOnes` | src/ManapiUnicode.cpp:5-19 | the length that a first byte announces is the number of its leading one bits |
| `Utf8.WellFormedIsEncoded` | src/ManapiJsonBuilder.cpp:902-936 | the strings called well-formed are the encodings of code points that are no surrogates, one after the other |
| `Utf8.EncodedIsWellFormed` | src/ManapiJsonBuilder.cpp:902-936 | and all of these are |
| `JsonEscapes.EscapingKeepsAcceptance` | src/ManapiJsonBuilder.cpp:902-936 | the check of a string and the reader of its escaped text accept the same, whatever follows that needs no escape, if and only if their counters stand alike after it |
| `JsonEscapes.EscapingCanChangeAcceptance` | src/ManapiJsonBuilder.cpp:902-936 | a byte string the check accepts whose escaped text the reader refuses |
| `JsonRoundTrip.DumpGives` | src/ManapiJson.cpp:233-354 | simulation: a suspended builder fed the text of any value, before any text, ends as that value with the rest untouched |
| `JsonRoundTrip.StringGives` | src/ManapiUtils.cpp:110-143 | the quoted escaped text of a string reads as the string |
| `JsonRoundTrip.ObjectGives` | src/ManapiJsonBuilder.cpp:470-577 | the entries of an object, in their order, read as the same entries |
| `JsonValue.InsertSorted` | src/ManapiJson.cpp:724-740 | inserting a new key keeps the entries sorted and adds exactly that entry |
| `JsonValue.LessMeans` | src/ManapiJson.cpp:724-740 | the order of the keys is by the smaller byte where they first differ, a beginning before the whole |
| `Sha256.Sha256.Transform` | src/ManapiHash.cpp:62-98 | the in-place rounds over any number of blocks take `m_h` to the FIPS 180-4 section 6.2.2 hash of those blocks from the old `m_h` |
| `Sha256.Sha256.Schedule` | src/ManapiHash.cpp:72-77 | the 64 words of `w` are the message schedule of the block |
| `Sha256.Sha256.RunRounds` | src/ManapiHash.cpp:78-93 | 64 rounds on `wv` equal the rounds of the standard |
| `Sha256.Sha256.Update` | src/ManapiHash.cpp:114-135 | after every update the buffer holds the unhashed tail, `m_len < 64`, and `m_h` is the hash state of the full blocks of everything given so far |
| `Sha256.Sha256.Final` | src/ManapiHash.cpp:137-154 | the digest is the hash of the message padded as the code pads it |
| `Sha256.CodePadIsPad` | src/ManapiHash.cpp:143-149 | the code pads as section 5.1.1 does if and only if the message has fewer than 2^29 bytes, because its length field has 32 bits |
| `Sha256.HashParts` | src/ManapiHash.cpp:100-154 | init, any sequence of updates and final give the digest of the concatenation by the standard that Sha256Standard and Sha256Answer pin down, for under 2^29 bytes |
| `Sha256.HashExtend` | src/ManapiHash.cpp:114-135 | hashing block by block as data arrives is hashing the whole |
| `Sha256.LowDigits` | include/ManapiHash.hpp:40-46 | the four bytes of a 32-bit count are the low four of the 64-bit length |
| `Sha256Spec.PadIsBlocks` | src/ManapiHash.cpp:143-149 | padding ends on a block boundary and is the shortest with room for the length |
| `Sha256Spec.HashConcat` | src/ManapiHash.cpp:62-98 | the hash of a concatenation of whole blocks is the composition of the hashes |
| `Sha256Standard.RoundConstants` | src/ManapiHash.cpp:44-60 | the t-th round constant is the first 32 bits of the fraction of the cube root of the t-th prime (section 4.2.2) |
| `Sha256Standard.InitialWords` | src/ManapiHash.cpp:100-112 | the initial words are those of the square roots of the first eight primes (section 5.3.3) |
| `Sha256Standard.PrimesAscend` | src/ManapiHash.cpp:44-60 | the t-th prime is a prime, and the list of primes ascends |
| `Sha256Standard.ListedArePrimes` | src/ManapiHash.cpp:44-60 | up to 311 the listed numbers are the primes, and no others are |
| `Sha256Standard.ChChooses` | include/ManapiHash.hpp:34-34 | at each bit Ch takes its second or its third word as the first one says |
| `Sha256Standard.MajIsMajority` | include/ManapiHash.hpp:35-35 | at each bit Maj is what two of its words agree on |
| `Sha256Standard.BitsGoAround` | include/ManapiHash.hpp:32-32 | the bits of a word are zero or one, and after 32 of them comes the first again |
| `Sha256Standard.BigSigma0Bits` | include/ManapiHash.hpp:36-36 | bit i is the sum without carry of the bits i + 2, i + 13 and i + 22, around the end |
| `Sha256Standard.BigSigma1Bits` | include/ManapiHash.hpp:37-37 | and of the bits i + 6, i + 11 and i + 25 |
| `Sha256Standard.SmallSigma0Bits` | include/ManapiHash.hpp:38-38 | and of the bits i + 7, i + 18 and i + 3, the last three bits not coming around |
| `Sha256Standard.SmallSigma1Bits` | include/ManapiHash.hpp:39-39 | and of the bits i + 17, i + 19 and i + 10, the last ten bits not coming around |
| `Sha256Standard.BigEndianSpells` | src/ManapiHash.cpp:143-149 | the last bytes of the padding spell the length, the most significant digit first |
| `Sha256Answer.DigestOfAbc` | src/ManapiHash.cpp:100-154 | the digest of `abc`, worked out round by round, is ba7816bf 8f01cfea 414140de 5dae2223 b00361a3 96177a9c b410ff61 f20015ad |
| `Base64.EncodeInto` | include/ManapiBase64.hpp:494-553 | the table loop over the preallocated buffer writes the encoding of section 4 of RFC 4648, padding included |
| `Base64.DecodeInto` | include/ManapiBase64.hpp:565-677 | the table loop decodes a text, or reports its length, its padding or a bad character, each exactly when it should |
| `Base64.DecodeEncode` | include/ManapiBase64.hpp:494-677 | decoding inverts encoding for all byte strings |
| `Base64.DecodedTexts` | include/ManapiBase64.hpp:571-677 | a text is decoded if and only if its length is a multiple of 4, all is in the alphabet, and = occurs only as a suffix of at most two |
| `Base64.EncodeDecode` | include/ManapiBase64.hpp:494-677 | encoding inverts decoding if and only if the bits of the last character that carry no data are zero |
| `Base64.WordsDecode` | include/ManapiBase64.hpp:593-620 | the OR of four table words is bad exactly when a character is, and otherwise holds the three bytes in memory order |
| `Base64.ThreeWordsDecode` | include/ManapiBase64.hpp:626-650 | the same for a group with one padding character |
| `Base64.TwoWordsDecode` | include/ManapiBase64.hpp:651-669 | the same for a group with two |
| `Base64.TablesEncode` | include/ManapiBase64.hpp:513-523 | the shifts and the two tables give the four characters of a 24-bit group |
| `Base64.AlphabetIs` | include/ManapiBase64.hpp:451-490 | the characters of the 64 values are those of Table 1 of RFC 4648, in order |
| `Base64.TestVectors` | include/ManapiBase64.hpp:494-553 | `f`, `fo`, `foo` and `foobar` are encoded as section 10 of RFC 4648 has them |
| `Base64.ThereAndBack` | include/ManapiBase64.hpp:494-677 | encode_into, then decode_into, returns the data |
| `Router.Site.BuildUriPart` | src/ManapiSite.cpp:415-580 | the scan of a uri ends at the node of its segment list with its kind, has made exactly the missing nodes on the way, and keeps the trie a tree |
| `Router.Site.Descend` | src/ManapiSite.cpp:494-510 | one part: the child is found or made, and no two segment lists share a node |
| `Router.Site.SetHandler` | src/ManapiSite.cpp:339-390 | registering in the trie is registering in the flat table, with the same error for a method that is there |
| `Router.Site.SetStatic` | src/ManapiSite.cpp:392-413 | the same for a folder, which is refused on special pages |
| `Router.Site.GetHandler` | src/ManapiSite.cpp:218-321 | the walk finds exactly what the flat table says: the page of the whole path, the layers of its prefixes, the deepest error page with the layers above it, the deepest folder; also when the path is shorter than the divided position and reading it throws |
| `RouteTable.VisitCollects` | src/ManapiSite.cpp:231-247 | visiting the nodes of the prefixes one after the other collects the layers in order, the deepest folder so far with its depth, and the deepest error page so far with the number of layers down to it |
| `RouteTable.ParseUriOf` | src/ManapiSite.cpp:415-580 | every segment list is the target of a uri, for each kind of special last part |
| `RouteTable.ParseIsTarget` | src/ManapiSite.cpp:423-500 | any uri, with slashes wherever it has them, is its nonempty parts; a last part that starts with a plus sign is none of them and makes it an error page, a layer or, with any other name, a page |
| `RouteTable.NothingBelow` | src/ManapiSite.cpp:252-295 | where the walk leaves the trie nothing more can be found |
| `RouteTable.ErrorLayers` | src/ManapiSite.cpp:300-300 | the copied layers are those down to the depth of the error page |
| `RouteTable.WalkThrows` | src/ManapiSite.cpp:252-252 | reading past the path leaves the error page without layers |
| `Registrations.FirstWins` | src/ManapiSite.cpp:209-216 | after any registrations each key holds what was registered for it first |
| `Registrations.RefusedExactly` | src/ManapiSite.cpp:339-413 | a registration is refused if and only if its key is taken, or a folder is put on a special page |
| `Registrations.DuplicateChangesNothing` | src/ManapiSite.cpp:209-216 | a refused duplicate leaves every key and every node as it was |
| `Registrations.RefusedChangesNothing` | src/ManapiSite.cpp:209-216 | a refused registration changes a lookup if and only if the request now reads past its path, did not before, and had error layers to lose; a duplicate never does, nor does any refused registration for a request divided inside its path |
| `Registrations.PastExactly` | src/ManapiSite.cpp:252-252 | a request reads past its path if and only if it is divided past the end and some registration, refused or not, goes on below the path |
| `Registrations.RefusedFolderIsSeen` | src/ManapiSite.cpp:392-413 | a folder that was refused on a special page takes the error layers from such a request |
| `Registrations.FindsPageAndLayers` | src/ManapiSite.cpp:226-321 | after any registrations a request, divided or not, finds the first page registered for its method and the segments that count, or none, and the first layers of their prefixes from the root on |
| `Registrations.FindsDeepestError` | src/ManapiSite.cpp:242-300 | it finds the deepest error page among those segments, with the layers down to that depth and no more, or without layers when the request reads past its path |
| `Registrations.FindsDeepestFolder` | src/ManapiSite.cpp:231-235 | it finds the deepest folder among them and its depth |
| `Registrations.Serving` | src/ManapiSite.cpp:218-580 | the whole chain on objects: any registrations on a fresh site, then a request, divided or not |
| `CompressedCache.Site.GetCompressedCacheFile` | src/ManapiSite.cpp:121-149 | a hit changes nothing, a miss forgets the entry |
| `CompressedCache.Site.SetCompressedCacheFile` | src/ManapiSite.cpp:151-163 | a new entry, or the duplicate-key error |
| `CompressedCache.Site.CompressFile` | src/ManapiTaskHttp.cpp:891-908 | never the duplicate-key error: a hit serves the entry, anything else compresses anew and replaces it |
| `CompressedCache.RequestServesCurrent` | src/ManapiTaskHttp.cpp:891-908 | in every run of edits, deletions, requests, saves and restarts, the served file exists and was made by the algorithm from a content the file had at its current write time |
| `CompressedCache.AgreesWithRecompressing` | src/ManapiSite.cpp:121-163 | if every edit gives a new write time, the served file is the compressed current content |
| `CompressedCache.ServesCurrentExactly` | src/ManapiSite.cpp:121-163 | for a history of edits: in every run with these edits, whatever requests, deletions, saves and restarts come between, every request serves what recompressing the current content would, if and only if the edits gave the file no other content under its current write time |
| `CompressedCache.SameTimeIsStale` | src/ManapiSite.cpp:138-145 | an edit, a request and an edit that keeps the write time: the next request is answered by the old content |
| `CompressedCache.AskedAgain` | src/ManapiSite.cpp:121-149 | asked again, also after a save and a restart, a request is answered by the same file and nothing is compressed |
| `CompressedCache.OthersStay` | src/ManapiSite.cpp:121-163 | a request leaves the entries of other files and algorithms as they are |
| `CompressedCache.NewTimesTell` | src/ManapiSite.cpp:138-138 | then a write time stands for one content, in every run |
| `ThreadPool.Pool.AppendTask` | src/ManapiThreadPool.cpp:57-88 | refused after the stop, in front of its level, or on a thread of its own |
| `ThreadPool.Pool.GetTask` | src/ManapiThreadPool.cpp:90-105 | the loop takes the oldest task of the highest level that has one |
| `ThreadPool.Pool.TaskDoit` | src/ManapiThreadPool.cpp:133-152 | a task that asks for it is appended again at level 0 |
| `ThreadPool.NewPool` | src/ManapiThreadPool.cpp:12-28 | no threads or no queues is an error |
| `ThreadPool.ExactlyOnePlace` | src/ManapiThreadPool.cpp:57-152 | in every interleaving each accepted task is queued, in one worker, finished or refused on retry: exactly one of these, once; none is refused before the stop |
| `ThreadPool.TakenInOrder` | src/ManapiThreadPool.cpp:90-105 | in every interleaving each take is of the oldest task of its level, with nothing left in a higher level; a worker that sleeps found nothing |
| `ThreadPool.QueueIsTheRest` | src/ManapiThreadPool.cpp:57-105 | per level, the appends in order are the takes in order and then the queue |
| `ThreadPool.AppendedAtItsLevel` | src/ManapiThreadPool.cpp:57-152 | in every interleaving each append is at the level that its call asked for, or, if the task has been appended before, at level 0 |
| `ThreadPool.StoppedTakesBound` | src/ManapiThreadPool.cpp:46-50 | after the stop at most as many tasks are taken as workers were past the check |
| `ThreadPool.StoppedPushesBound` | src/ManapiThreadPool.cpp:57-88 | and at most as many appended as callers and retries were past the check |
| `ThreadPool.StoppedForGood` | src/ManapiThreadPool.cpp:31-33 | once all_tasks_stopped holds, all threads have stopped, none holds a task and none is taken in any continuation |
| `ThreadPool.StepConserves` | src/ManapiThreadPool.cpp:57-152 | every step keeps the conservation |
| `ThreadPool.StepKeepsOrder` | src/ManapiThreadPool.cpp:57-105 | every step keeps the order |
| `FormCodec.RoundTrip` | src/ManapiUtils.cpp:234-288 | decoding the form of a nonempty object of strings gives it back if and only if it is all ASCII and not the empty string at the empty key alone |
| `FormCodec.FormGives` | src/ManapiHttpRequest.cpp:160-242 | for any pairs, what decoding gives: all of them as they are shown, without an empty last one |
| `FormCodec.FirstValueKept` | src/ManapiHttpRequest.cpp:221-221 | of a key that comes more than once the first value is kept |
| `FormCodec.OnlyInserted` | src/ManapiHttpRequest.cpp:221-221 | and no keys are there but those that came |
| `FormReading.RepeatedKeys` | src/ManapiHttpRequest.cpp:160-242 | so decoding the form of pairs with repeated keys gives each key its first value, and no other keys |
| `FormReading.Decodes` | src/ManapiHttpRequest.cpp:160-242 | for every text: it is spelled by some parts between ampersands, of a key and what follows at its signs of equality, in plain bytes, plus signs and escapes, up to an escape cut short at its end; decoding gives the pairs that these spell |
| `FormReading.ReadsParts` | src/ManapiHttpRequest.cpp:160-242 | and the same for every such spelling |
| `FormReading.TwoDigits` | src/ManapiUtils.cpp:101-104 | two digits of an escape, of either case, spell sixteen times the one plus the other |
| `FormReading.EncodedAs` | src/ManapiUtils.cpp:234-261 | letters, digits and four marks are encoded as themselves, a space as a plus sign, everything else by its two upper-case digits behind a percent sign, with six more before them if it is not ASCII |
| `FormCodec.TextBack` | src/ManapiHttpRequest.cpp:160-242 | decoding an encoded text appends it, wherever the decoder stands |
| `FormCodec.ShownIsAscii` | src/ManapiUtils.cpp:234-261 | a text comes back exactly when it is ASCII |
| `FormCodec.WriteForm` | src/ManapiUtils.cpp:263-288 | the loop of json2form writes the form |
| `FormCodec.WriteUrl` | src/ManapiUtils.cpp:234-261 | the loop of encode_url writes the encoding, eight digits for a byte from 128 on |
| `BodyReader.Request.ReadNextPart` | src/ManapiTaskHttp.cpp:867-889 | the window moves on by what has been used, to the next block; the end of the stream, a failure and a block above the limit are told apart |
| `BodyReader.Request.ReadBody` | src/ManapiHttpRequest.cpp:652-672 | the chunks handed over are the body, taken from the start of the block in hand |
| `BodyReader.HandedExactly` | src/ManapiHttpRequest.cpp:668-669 | these are the bytes of the body, whatever the block holds, if and only if reading starts at index 0 or with nothing in hand |
| `BodyReader.ReadFrom` | src/ManapiHttpRequest.cpp:652-672 | a request whose index stands inside the block hands over as many bytes as are left, from the start of the block |
| `BodyReader.HandedFromInside` | src/ManapiHttpRequest.cpp:668-669 | one byte of two has been read: the first is handed over again in place of the second |
| `BodyReader.ReadWhole` | src/ManapiHttpRequest.cpp:652-672 | conservation: exactly the first bytes received, as many as the content length or as there are, in order |
| `BodyReader.RestStops` | src/ManapiTaskHttp.cpp:867-889 | a body cut off by a failed read, by the end of the stream or by a block above the limit keeps all that came before, and ends with the error for it |
| `BodyReader.ReadBroken` | src/ManapiHttpRequest.cpp:652-672 | and so it is handed over |
| `BodyReader.Request.Form` | src/ManapiHttpRequest.cpp:160-242 | the urlencoded branch decodes the bytes the window delivers, as FormReading describes it, wherever the blocks are cut, also inside an escape |
| `BodyReader.SendForm` | src/ManapiHttpRequest.cpp:111-248 | an object of strings sent as a form over any nonempty blocks comes back exactly under the condition of the codec |
| `Replacers.FoundReplacers` | src/ManapiUtils.cpp:323-431 | the scan finds the items of the file as if the character left over from the failed read stood at its end |
| `Replacers.ScanIsExact` | src/ManapiUtils.cpp:346-361 | that is exactly the file's items if and only if the file does not end one closing brace short of an item, or the left-over character is not that brace |
| `Replacers.OneBraceShort` | src/ManapiUtils.cpp:346-361 | such a file, whose item is found with a last brace past the end |
| `Replacers.OutsideSlots` | src/ManapiUtils.cpp:363-425 | found items are disjoint, in order, inside the file, and each slice holds between its braces what the scan reads as its key, also a key with a closing brace in it |
| `Replacers.SlotSpells` | src/ManapiUtils.cpp:363-401 | the slice of a found key is the key in double braces if and only if the key has no closing brace |
| `Replacers.BrokenKeyIsFound` | src/ManapiUtils.cpp:363-401 | a key with a closing brace in it is found although one brace is missing |
| `Replacers.DynamicFileSize` | src/ManapiTaskHttp.cpp:982-992 | the loop adds for every item its value and takes away its slice |
| `Replacers.ReplacedLength` | src/ManapiTaskHttp.cpp:982-992 | that is the length of the file with every slice replaced by its value |
| `Replacers.ContentLength` | src/ManapiTaskHttp.cpp:968-1040 | the Content-Length is the length of the replaced file if and only if the left-over character finds no further item, or one whose value is as long as its slice would be |
| `Replacers.Renders` | src/ManapiUtils.cpp:323-431 | on a text of literals, which may hold single braces, and keys in double braces, replacing gives the literals with the values between them, and unknown keys stay |
| `Replacers.PendingOverruns` | src/ManapiUtils.cpp:363-387 | the item found by the left-over character ends outside the file |
| `JsonMask.ResolveText` | src/ManapiJsonMask.cpp:84-419 | the scanning loops over a text in braces give the rows of its alternatives |
| `MaskMeaning.CompilingKeepsMeaning` | src/ManapiJsonMask.cpp:84-498 | every mask of literals, unions with values and bounds in brackets, positional arrays and all-required objects, with bounds on strings only and exact rows (the condition of ExactBounds), compiles, and validating any value against it says exactly whether the value meets its plain reading |
| `MaskMeaning.UnionCompiles` | src/ManapiJsonMask.cpp:111-419 | a written union compiles to one row for each alternative, with its value and its bounds |
| `MaskMeaning.BoundsCompileExactly` | src/ManapiJsonMask.cpp:296-370 | a type with bounds compiles to their row if and only if no two of them are on the same side, and throws otherwise |
| `MaskMeaning.UnknownTypesThrow` | src/ManapiJsonMask.cpp:126-205 | letters that name no type throw |
| `MaskMeaning.OtherOps` | src/ManapiJsonMask.cpp:230-278 | of the other comparisons `=>` and `=<` lose their equals sign, and the rest throw |
| `MaskMeaning.TwoValuesThrow` | src/ManapiJsonMask.cpp:296-370 | two values in brackets throw |
| `MaskMeaning.UnclosedBrackets` | src/ManapiJsonMask.cpp:405-412 | a bracket that is not closed is passed over if it is empty and throws if a number is in it |
| `MaskMeaning.UnclosedComparison` | src/ManapiJsonMask.cpp:230-278 | and so does a comparison that is not closed |
| `MaskMeaning.SquareBrackets` | src/ManapiJsonMask.cpp:280-300 | a type before `[]` is valid for the empty array, invalid for what is no array, and throws for any other array |
| `MaskMeaning.BracketsBehindSquare` | src/ManapiJsonMask.cpp:364-385 | brackets behind `[]` throw |
| `MaskMeaning.EmptyBraces` | src/ManapiJsonMask.cpp:84-109 | `{}` is a text |
| `MaskMeaning.OtherMasksThrow` | src/ManapiJsonMask.cpp:84-452 | a mask that is no text, array or object cannot be validated against |
| `MaskMeaning.RowWithValue` | src/ManapiJsonMask.cpp:504-560 | an alternative with a value is met by that value alone |
| `MaskMeaning.ObjectMeans` | src/ManapiJsonMask.cpp:605-640 | comparing the sizes and testing each key of the mask compares the sets of keys |
| `MaskMeaning.ExactBounds` | src/ManapiJsonMask.cpp:699-726 | comparing an unsigned size with a signed bound is the plain comparison if and only if no bound is below zero, or nothing is to be admitted anyway |
| `MaskMeaning.BoundsKept` | src/ManapiJsonMask.cpp:699-726 | the same in terms of the bounds as they are written |
| `MaskMeaning.AlternativeKept` | src/ManapiJsonMask.cpp:504-525 | for one string alternative, with or without a value, the verdict on all strings is the plain one if and only if its row is exact, or its bounds are read as written for the size of its value |
| `MaskMeaning.NumberBoundsAreIgnored` | src/ManapiJsonMask.cpp:526-547 | bounds on a number are compiled and not looked at by this validator |
| `MaskMeaning.NumberBoundsExactly` | src/ManapiJsonMask.cpp:526-547 | so its verdict on a number is as written if and only if the number satisfies the bounds, and on all numbers if and only if there are none |
| `MaskMeaning.StreamingKeepsMeaning` | src/ManapiJsonBuilder.cpp:703-865 | a string streamed under a union is accepted exactly when it meets it, if no upper bound is below zero; lower bounds may be anything |
| `MaskMeaning.StreamingExact` | src/ManapiJsonBuilder.cpp:757-825 | for one string alternative, with or without a value, that is so on all strings if and only if its upper bound is not below zero, or it has a value that its lower bound keeps out |
| `MaskMeaning.AtLeastZeroAdmitsNothing` | src/ManapiJsonMask.cpp:699-726 | `{string(>=0)}` is met by every string, passes every string that is streamed, and refuses every finished one |
| `MaskMeaning.BelowZeroAdmitsAll` | src/ManapiJsonMask.cpp:699-726 | `{string(<-1)}` is met by no string and passes every one |
| `MaskCursor.StreamString` | src/ManapiJsonBuilder.cpp:703-865 | the search through the alternatives ends and accepts a string if and only if some alternative admits it |
| `MaskCursor.Cursor.CheckEqType` | src/ManapiJsonBuilder.cpp:715-755 | the first alternative from the current one on that a string may be built under, or the error |
| `MaskCursor.Cursor.CheckString` | src/ManapiJsonBuilder.cpp:857-865 | the loop at the end of a string |
| `MaskCursor.Agree` | src/ManapiJsonBuilder.cpp:757-855 | both validators agree on strings when lower bounds are not negative |
| `MaskCursor.AgreeExactly` | src/ManapiJsonBuilder.cpp:798-825 | for one string alternative they agree on all strings if and only if the lower bound is not negative or the upper bound is zero |
| `HeaderValue.RoundTrip` | src/ManapiUtils.cpp:485-602 | parsing a written list gives it back if and only if no text in it has a special character, it is not empty, and no item after the first has an empty value |
| `HeaderReading.ParsesParts` | src/ManapiUtils.cpp:485-563 | any list of parts, each a name or a name and values behind signs of equality, spelled with quotes, backslashes and spaces anywhere, is read as what it means |
| `HeaderReading.QuotedListsComeBack` | src/ManapiUtils.cpp:485-563 | every list with names and values without special characters comes back when the values of its parameters are quoted, whatever characters these hold |
| `HeaderReading.QuotedComesBack` | src/ManapiUtils.cpp:485-563 | `value; key="..."` with a backslash before each quote and backslash gives the value with its one parameter, for every text |
| `HeaderReading.BackslashAtTheEnd` | src/ManapiUtils.cpp:500-512 | a backslash at the very end loses the part that it stands in |
| `HeaderReading.UnclosedQuotes` | src/ManapiUtils.cpp:515-520 | quotes that are not closed end with the text |
| `HeaderValue.FirstStored` | src/ManapiUtils.cpp:534-534 | of a parameter that comes more than once the first value is kept |
| `HeaderValue.ParseHeaderValue` | src/ManapiUtils.cpp:485-563 | the loop reads what HeaderReading says it does, with quotes, escapes and a trailing backslash |
| `HeaderValue.StringifyHeaderValue` | src/ManapiUtils.cpp:565-602 | the loops write the items with their separators |

## Left out

- Base64.EncodeInto: the tables are functions of the 6-bit value, for a little-endian machine; the big-endian tables are not modelled.
- Base64.DecodeInto: sizes are unbounded; an output size that overflows `size_t` is not modelled.
- BodyReader.Request.Form: the multipart branch, the content-type check before it and the mask check after it are not modelled.
- CompressedCache.RequestServesCurrent: assumes that the file exists and that the compressor's name has not been used before; zlib and the directory are foreign.
- FormCodec.WriteForm: an empty object is not written, because json2form dereferences the end iterator; members that are not strings are written as their dump, which is not modelled.
- HeaderValue.StringifyHeaderValue: an item without value and parameters is not written, because the code dereferences the end iterator.
- JsonBuilder.Builder.BuildNumeric: bigint mode is not modelled, and a decimal keeps its text in place of the `long double` it is read as: which texts are decimals is modelled, not how they round.
- JsonBuilder.Builder.Feed: a builder without mask; masks are modelled for strings alone, in MaskCursor. Positions do not wrap around, and error positions and messages are not modelled.
- JsonEscapes.RoundTrip: bigint values dump as strings and are no values here; a decimal comes back as the text it keeps, where the code prints the digits of `std::to_string`, so its loss of precision is not modelled.
- JsonMask.ResolveText: `none`, brackets after bool, decimal and bigint, and a decimal in brackets, which the code casts, end in a result that says they are not modelled; numbers in bounds do not overflow.
- JsonPrinter.DumpJson: bigint is not modelled, and a decimal prints the text it keeps, not the digits `std::to_string` gives.
- MaskCursor.StreamString: numeric, bool, null, array and object alternatives while streaming are not modelled.
- MaskMeaning.CompilingKeepsMeaning: values in brackets are texts for strings and integers for numbers; the plain reading has no `none`, no `[..]` and no values of other types.
- Registrations.Serving: uris without `[`, as Router.Site.BuildUriPart.
- Replacers.FoundReplacers: for a whole file from its start, as send_response calls it; replacing block by block in send_file is not modelled.
- Router.Site.BuildUriPart: uris without `[`: regex segments are not modelled. Maps that have not been allocated are empty maps.
- Router.Site.GetHandler: regex children and the parameters they capture are not modelled.
- Router.Site.SetHandler: uris without `[`, as Router.Site.BuildUriPart.
- Router.Site.SetStatic: uris without `[`, as Router.Site.BuildUriPart.
- Sha256.Sha256.Update: one chunk is shorter than 2^31 bytes, the range of the block counter's loop.
- ThreadPool.StoppedForGood: reads of `is_stop` are atomic here; liveness is not modelled, because the wait has no predicate. Tasks on a thread of their own have left the pool.
- The JSON tree is a value: the heap cells of `json`, their sharing and moves are not modelled.
- The timer pool, sockets, TLS, HTTP/3, curl, configuration, MIME tables, Range headers and the QUIC task handoff.
- Parsing of the request line into path segments.
