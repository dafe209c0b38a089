# A verified model of the LIVE client and of the scripts it hosts

The repository is a C++ client for a LIVE event stream. It talks to the server over a WebSocket
and over HTTP polling at once, reads JSON and query texts with hand-written scanners, and signs its
requests by running three JavaScript files in an embedded engine: a bundle with a URL, URLSearchParams
and Promise implementation, a DOM shim, and a bundle that contains a schema library. This project models
the parts of that code with the most state, branching and arithmetic, and proves what they are for.

The modules follow the source. Code that works step by step is a method or a class whose methods are
proved against a function or a relation, and the laws are lemmas about that function or relation.

* `Punycode`, `PunySpelling`: the encoder with its bias adaptation (section 6.3 of RFC 3492) against a decoder over
  unbounded integers, and that decoder against section 6.2 with the RFC's own numbers.
* `IpAddress`, `IpSpelling`: the IPv4 and IPv6 parsers, which fill and shift an array in place, the host serializer
  (sections 3.5 and 3.6 of the WHATWG URL Standard, section 4.2 of RFC 5952), and exactly which texts are an address.
* `UrlRecord`, `UrlHost`, `UrlStates`, `UrlParser`: URL records, hosts, and the URL parser of 21 states, as a
  transition function and as the object with one method a state (section 4.4 of the WHATWG URL Standard).
* `UrlRuns`, `UrlPath`, `UrlAuthority`, `UrlReference`, `UrlWhole`: what runs of the parser come to on whole
  texts - schemes, authorities, dot segments, relative and file references.
* `UrlShift`, `UrlUserinfo`, `UrlPorts`, `UrlSame`, `UrlBackslash`, `UrlCleaned`: laws that compare two texts - two runs
  with the same text ahead end alike, so a default port, slashes, a repeated scheme, "localhost", a backslash for a
  slash, padding and newlines make no difference; and exactly which port any other number gives.
* `UrlSpelling`: the characters and names that count in the parser, spelled out.
* `UrlSetters`, `UrlObject`: the runs under the state overrides, and the URL object with its nine setters, each with
  the exact URL it leaves.
* `UrlNormal`, `UrlOutputs`: the normal form, and the invariant by which every URL the parser returns is in it.
* `UrlPrinter`, `UrlHostText`, `UrlReadBack`, `UrlRoundTrip`, `UrlLost`, `UrlHref`: the URL printer, exactly which
  URLs come back from their printed text, texts that are parsed to the others, and `new URL(url.href)`.
* `Uri`, `FormUrlEncoded`, `FormSpelling`: the meaning of encodeURIComponent and decodeURIComponent (section 19.2.6 of
  ECMA-262), the form parser and printer on top of them, and what the parser reads of texts nobody printed.
* `Sort`: the in-place insertion sort and recursive merge sort behind URLSearchParams.sort.
* `ReactionQueue`, `Promises`, `PromiseLaws`, `PromiseRealm`: the linked queue of reactions, the Promise implementation (section
  27.2 of ECMA-262) as a machine whose moves are calls by the program and turns of the microtask queue, to
  which status and value each move settles, and the engine with its fields and queues, each of whose operations is one
  move.
* `Dispatch`, `Lifecycle`, `LifecycleLaws`: the de-duplicating dispatcher, and the run of the client as a transition system in
  which the polling thread, the socket's thread and calls of `disconnect` interleave at every access to the
  shared flags.
* `WsReassembly`: message reassembly on the socket (section 5.4 of RFC 6455).
* `JsonText`, `JsonString`, `JsonSpelling`: the balanced-brace scanner, the gift-array walker, the string printer and
  the string reader, against every spelling of a string in section 7 of RFC 8259.
* `Query`: the query encoder against a decoder written from sections 2.1 and 2.3 of RFC 3986.
* `Utf8`: the shim's TextEncoder and TextDecoder on 32-bit words (section 3 of RFC 3629).
* `Timers`: the shim's timer queue with re-entrant callbacks.
* `Merge`: the recursive merge of an intersection schema as a partial join of trees.

Text of the scripts is a sequence of UTF-16 code units or of code points, text of the client a sequence of
bytes, both as integers. What the network, the clock, user callbacks and the host's `toLowerCase` answer is a
parameter or an arbitrary input of a step.

Six laws do not hold of the code as one might first state them; the model keeps the code and says when they hold:

* A WebSocket message arrives whole exactly if no payload of it stands before a control frame inside it
  (`WsReassembly.MessagesWholeExactly`); RFC 6455 allows such control frames.
* The decoder of the shim gives a text back exactly if every surrogate in it stands in a pair
  (`Utf8.RoundTripExactly`).
* Merging a tree with a copy of itself is valid exactly if it holds no NaN and no invalid date
  (`Merge.JoinIdempotent`).
* A JSON spelling of a string is read as the string it spells exactly if it holds neither `\b` nor `\f` and no `\u` escape
  from 0080 on, which the reader drops (`JsonSpelling.SpellingExact`).
* In a form body with a "%" that starts no escape the other escapes are still read, if they stand apart; side by side they
  may be read twice, so that "%25%341%" comes out as "A%" (`FormSpelling.TextRead`, `FormSpelling.ReadTwice`).
* A URL that the parser has given is parsed back from its own `href` if and only if it comes back
  (`UrlRoundTrip.ComesBack`, `UrlRoundTrip.ComesBackExactly`, `UrlHref.ConstructTwice`): without a host its path must
  not start with an empty segment in front of others, which reads as an authority; a file URL must have a host, if
  only the empty one, and no drive letter that is written with a bar or stands behind a host; and the host of a
  special URL must hold no DEL, which the code encodes once more. `UrlLost` gives a text for each family that fails.

Where the code and its comments or standards differ, the model follows the code: the class of scheme characters
`[\d+-.a-z]` admits the comma; SPECIAL_AUTHORITY_SLASHES looks for the second slash in the buffer, which is
always empty there; a relative reference against a base with an empty path throws a RangeError instead of
failing; the encoder takes any surrogate as the first half of a pair; a `host` setter whose text has a port beyond 65535
fails, but has set the host by then.

## Model

| member | source | states |
|---|---|---|
| Punycode.Ucs2Decode | js/secsdk-lastest.umd.js:4436-4459 | the output is the code points of the text, pairs joined and lone surrogates kept |
| Punycode.Utf16CodePoints | js/secsdk-lastest.umd.js:4436-4459 | writing the code points of any UTF-16 text as units again gives the text back |
| Punycode.DigitRoundTrip | js/secsdk-lastest.umd.js:4464-4468 | every digit 0..35 is the value of the character written for it, which is never the delimiter |
| Punycode.Adapt | js/secsdk-lastest.umd.js:4474-4483 | the loop halts and computes the bias of section 6.1 of RFC 3492 |
| Punycode.AppendVarInt | js/secsdk-lastest.umd.js:4544-4558 | the digit loop appends the variable-length form of delta under the bias |
| Punycode.VarIntRoundTrip | js/secsdk-lastest.umd.js:4544-4558 | for every bias and whatever follows, the decoder reads back the number and stops at its last digit: the coding is invertible and self-delimiting |
| Punycode.NextCodePoint | js/secsdk-lastest.umd.js:4521-4528 | m is the least code point of the input that is at least n |
| Punycode.EncodePass | js/secsdk-lastest.umd.js:4537-4567 | one outer pass keeps encoder and decoder in step: handled is the number of code points below n, and the digits so far take the decoder to the text of those code points |
| Punycode.Encode | js/secsdk-lastest.umd.js:4489-4572 | it returns the one encoding of the input, which the decoder of section 6.2 of RFC 3492 reads back exactly, and throws the overflow error exactly if a distance between insertions, or what is counted behind the last one, exceeds 2^31 - 1; never on inputs of up to 1926 code points |
| Punycode.EncodedTextDecodes | js/secsdk-lastest.umd.js:4489-4572 | wherever a text has an encoding, it decodes to the text |
| Punycode.EncodedCharacters | js/secsdk-lastest.umd.js:4464-4572 | an encoding holds basic code points of the text, the delimiter and lower-case digits only, and is no shorter than the text |
| PunySpelling.DecodeExactly | js/secsdk-lastest.umd.js:4420-4483 | the decoder is the procedure of section 6.2 of RFC 3492 with the parameter values of section 5, written with nothing of the encoder |
| PunySpelling.EncodingExactly | js/secsdk-lastest.umd.js:4489-4572 | the encoding of any text is its code points below 128, a hyphen behind them if there are any, and digits from which that procedure rebuilds the text |
| IpAddress.ReadDottedTail | js/secsdk-lastest.umd.js:4711-4731 | the dotted tail fails or fills pieces of the array as a function of the text says, and leaves the places behind the last piece alone |
| IpAddress.MoveToEnd | js/secsdk-lastest.umd.js:4739-4746 | the swap loop moves the pieces behind "::" to the end of the array and zeros into the gap |
| IpAddress.ParseIPv6 | js/secsdk-lastest.umd.js:4677-4749 | on any text at all it halts, stays within the eight places and agrees with the parser as a function of the text |
| IpAddress.ParsedIPv6Pieces | js/secsdk-lastest.umd.js:4677-4749 | whatever the text, a result has eight pieces of 16 bits |
| IpAddress.FindLongestZeroSequence | js/secsdk-lastest.umd.js:4750-4774 | the answer is the first of the longest zero runs of length at least two, and none if there is no such run |
| IpAddress.SerializeIPv6 | js/secsdk-lastest.umd.js:4788-4803 | the text is the one recommended in section 4.2 of RFC 5952: "::" at the first longest zero run, lower-case numerals without leading zeros |
| IpAddress.IPv6RoundTrip | js/secsdk-lastest.umd.js:4677-4805 | parsing the recommended text of any eight 16-bit pieces gives the pieces back |
| IpAddress.ParseIPv4 | js/secsdk-lastest.umd.js:4636-4673 | the part, range and weight loops agree with the parser as a function of the text: failure, "not an address" or the number |
| IpAddress.ParsedIPv4Range | js/secsdk-lastest.umd.js:4662-4672 | every address is below 2 to the 32nd |
| IpAddress.SerializeIPv4 | js/secsdk-lastest.umd.js:4780-4786 | the loop writes the four bytes in decimal, highest first |
| IpAddress.IPv4RoundTrip | js/secsdk-lastest.umd.js:4636-4787 | parsing the dotted quad of any number below 2 to the 32nd gives the number back |
| IpSpelling.IPv4Exactly | js/secsdk-lastest.umd.js:4636-4673 | a text of dotted parts, with or without a dot at its end, is no IPv4 address with more than four parts or a part that is no decimal, "0" octal or "0x" hexadecimal number; one to four numbers are the address whose bytes they fill from the left, the last one those that are left, or are refused out of range |
| IpSpelling.IPv6Exactly | js/secsdk-lastest.umd.js:4677-4749 | a text is read as an IPv6 address if and only if it is eight pieces written out or a shortened form of section 2.2 of RFC 4291, digits of either case, up to four of them, the last two pieces perhaps as four decimal bytes without leading zeros; and then as the pieces it writes |
| IpSpelling.HexWritten | js/secsdk-lastest.umd.js:4788-4803 | a piece is written in small hexadecimal digits without a leading zero, which read as its value |
| IpSpelling.QuadWritten | js/secsdk-lastest.umd.js:4780-4786 | an IPv4 number is written as four decimal bytes without leading zeros, whose weighted sum it is |
| UrlRecord.OverriddenKeeps | js/secsdk-lastest.umd.js:4980-4996 | setting the scheme of a well-formed URL never changes whether it is special and leaves it well formed |
| UrlHost.DomainToAscii | js/secsdk-lastest.umd.js:4573-4590 | the loop gives the one domain of a text, each label kept or in its one Punycode form, and throws the overflow error exactly where a label has no form |
| UrlHost.LabelDecodes | js/secsdk-lastest.umd.js:4580-4588 | what stands behind the "xn--" of a label decodes to the label |
| UrlHost.PlainDomain | js/secsdk-lastest.umd.js:4573-4590 | a text whose characters all stop at "~" is its own domain |
| UrlSpelling.LabelsExactly | js/secsdk-lastest.umd.js:4573-4590 | labels with any of the four separators of RFC 3490 between them become a domain with full stops: a label up to "~" stays, any other is "xn--" and its Punycode form, and one without a form leaves no domain |
| UrlSpelling.DomainExactly | js/secsdk-lastest.umd.js:5403-5409 | a domain is refused exactly for one of 17 characters or "%" or an IPv4 number out of range; otherwise it is that address, or itself |
| UrlSpelling.OpaqueExactly | js/secsdk-lastest.umd.js:5394-5402 | a host that is no domain is refused exactly for one of the 17 characters, and is otherwise its text, percent-encoded |
| UrlSpelling.BracketExactly | js/secsdk-lastest.umd.js:5388-5393 | "[" starts an IPv6 address and nothing else, and "]" must be its last character |
| UrlSpelling.PartsEncoded | js/secsdk-lastest.umd.js:4806-4838 | in userinfo, paths, fragments and opaque texts every printable character is kept but the ones listed for each, and anything else is written by its UTF-8 octets in capital digits; a lone surrogate has no encoding |
| UrlSpelling.QueryEncoded | js/secsdk-lastest.umd.js:5367-5376 | a query keeps every printable character but "#" and, in a special URL, the apostrophe |
| UrlSpelling.OctetsWritten | js/secsdk-lastest.umd.js:4832-4838 | the octets of a code point are its UTF-8 form: their number, the first one, and six bits in each of the others |
| UrlSpelling.TwoDots | js/secsdk-lastest.umd.js:4876-4886 | a double-dot segment is exactly two dots, each plain or encoded in letters of either case |
| UrlSpelling.DriveLetters | js/secsdk-lastest.umd.js:4850-4874 | a drive letter is a letter and ":" or "|", and one starts a text only before a slash, "?", "#" or the end |
| UrlStates.TurnKeeps | js/secsdk-lastest.umd.js:4958-5383 | every turn of every state either lowers (rank of the state, code points left) and keeps what the parse has established, or stops for a stated reason; native exceptions come only from an empty base path, a missing base under an override, a lone surrogate or the Punycode overflow |
| UrlStates.RewindStopsBehindAt | js/secsdk-lastest.umd.js:5115-5146 | the rewind to the host never goes below 0 nor past the last "@", and covers exactly the buffered text |
| UrlParser.UrlState.TakeUserinfo | js/secsdk-lastest.umd.js:5119-5134 | the text up to the first ":" of all is encoded into the username and the rest into the password |
| UrlParser.UrlState.StepAuthority | js/secsdk-lastest.umd.js:5115-5146 | an "@" moves the text in front of it into username and password, and a delimiter moves the pointer back by exactly the buffered text; no other field of the URL changes |
| UrlParser.UrlState.ParseHost | js/secsdk-lastest.umd.js:5386-5414 | with its loops over labels, address and text it reads every text as exactly one host, a refusal or an exception, and changes nothing but the host |
| UrlParser.UrlState.Turn | js/secsdk-lastest.umd.js:4960-5382 | the switch carries out one turn of the transition function, in each of the 21 states |
| UrlParser.UrlState.Parse | js/secsdk-lastest.umd.js:4933-5384 | the loop halts for every input, base and override; it is a run of the transition function; a URL it returns is well formed; exceptions are explained |
| UrlParser.ParseWhole | js/secsdk-lastest.umd.js:4944-4960 | outcome and URL are those of a run on the code points of the text, trimmed and without tabs and newlines; a parsed URL is well formed, and a lone surrogate is the only text that can make percent-encoding throw |
| UrlParser.Construct | js/secsdk-lastest.umd.js:4913-4928 | the outcome is that of the run on the text against the URL of the run on the base text, or the base text's failure; a URL it makes is well formed, and an empty base path can only come from a given base |
| UrlCleaned.CleanedExactly | js/secsdk-lastest.umd.js:4953-4957 | C0 controls and spaces at both ends of a text and tabs and newlines anywhere in it, however many, leave just the text without them |
| UrlCleaned.CleanedYields | js/secsdk-lastest.umd.js:4933-4960 | so a text padded and sprinkled like that is parsed, against any base, to what the text itself is |
| UrlRuns.SomeRun | js/secsdk-lastest.umd.js:4958-5383 | from every configuration in which the parser can stand there is a run: the loop halts |
| UrlRuns.Determined | js/secsdk-lastest.umd.js:4958-5383 | any two runs from one configuration end alike, so outcome and URL are functions of text, base and override |
| UrlShift.SameAhead | js/secsdk-lastest.umd.js:4958-5383 | two runs that stand in one state before one text, in whatever texts and against whatever bases that state does not look at, come to one outcome and one URL |
| UrlShift.AnyPort | js/secsdk-lastest.umd.js:5195-5383 | from behind the authority a run is the same for any port, and keeps it |
| UrlRuns.ReadHost | js/secsdk-lastest.umd.js:5147-5184 | whatever text the scan takes for a host, brackets and colons in them included, the URL gets the host it reads as, or the parse ends as it says; nothing else changes |
| UrlRuns.ReadPath | js/secsdk-lastest.umd.js:5309-5355 | a path of any segments is walked segment by segment, percent-encoded, and a lone surrogate in it throws |
| UrlRuns.ReadOpaque | js/secsdk-lastest.umd.js:5356-5366 | an opaque path is its text, percent-encoded, up to "?" or "#" |
| UrlUserinfo.ReadUserinfo | js/secsdk-lastest.umd.js:5115-5146 | in a userinfo with any number of "@" and ":" the text up to the first ":" becomes the username and what stands behind it, every "@" but the last included, the password, percent-encoded; a lone surrogate throws |
| UrlPorts.ReadAuthority | js/secsdk-lastest.umd.js:4961-5209 | for any userinfo, host and number the run has read them behind the authority, or ends for the first of them that has no meaning: a lone surrogate, what the host says, a port above 65535 |
| UrlPorts.PortExactly | js/secsdk-lastest.umd.js:4840-5209 | for every userinfo, host, rest and base, "ftp:" with 21, "http:" and "ws:" with 80, "https:" and "wss:" with 443 come to the outcome and the URL of the text without the port; any other number up to 65535 is the port of that URL |
| UrlPorts.NothingBehindAt | js/secsdk-lastest.umd.js:5134-5145 | an "@" with no host behind it fails |
| UrlPorts.NothingBeforePort | js/secsdk-lastest.umd.js:5152-5158 | a port without a host in front of it fails, in every scheme |
| UrlPorts.NoNumber | js/secsdk-lastest.umd.js:5185-5209 | a port with anything but digits before its end fails |
| UrlAuthority.ReadOrigin | js/secsdk-lastest.umd.js:4961-5209 | the same for the credentials, host and port that the printer writes |
| UrlPath.WalkedResolved | js/secsdk-lastest.umd.js:5309-5345 | walking a path from the left gives the segments that no later ".." takes away, behind what is left of the path before; nothing goes above the root or a file's drive letter |
| UrlPath.SurvivorsPlain | js/secsdk-lastest.umd.js:5317-5327 | no dot segment is left in a path |
| UrlReference.WithoutScheme | js/secsdk-lastest.umd.js:4961-5019 | a text that does not start with a letter and scheme characters up to a colon is read again from its start, whatever was gathered of it |
| UrlReference.WithScheme | js/secsdk-lastest.umd.js:4961-5014 | a text that does has that scheme, in lower case, and the scheme, the base and a slash behind the colon decide how to go on |
| UrlReference.TailReference | js/secsdk-lastest.umd.js:5020-5079 | a reference that is a query, a fragment, both or nothing changes nothing else of the base, encodes what it brings, and keeps the base's query unless it has its own; an opaque base takes a fragment alone, and a file base gives no credentials and no port |
| UrlReference.PathReference | js/secsdk-lastest.umd.js:5020-5250 | a reference with a path is walked from the base without its last segment, with its own query and fragment; an empty base path throws, and a drive letter ahead keeps a file base out of it |
| UrlReference.DotReference | js/secsdk-lastest.umd.js:5080-5355 | outside files any number of segments, with "." and ".." and encoded characters anywhere, gives the path of section 5.2.4 of RFC 3986 |
| UrlReference.FileDotReference | js/secsdk-lastest.umd.js:5233-5355 | a file base keeps its host and, under any number of "..", its drive letter |
| UrlReference.RootReference | js/secsdk-lastest.umd.js:5090-5268 | a reference from the root keeps the base's authority, or a file base's drive letter, or its host if it has none, and an empty file base path throws |
| UrlReference.DriveIndependent | js/secsdk-lastest.umd.js:5210-5268 | "file:c:/..." and "file:/c:/..." come to the same URL against any two bases |
| UrlReference.DriveReference | js/secsdk-lastest.umd.js:5233-5246 | a reference that starts with a letter and a bar comes to the same URL against any two file bases |
| UrlSame.SlashesDoNotCount | js/secsdk-lastest.umd.js:5104-5114 | "http:h", "http:/h", "http:\\h" and "http:////h" come to the same, for every special scheme but file and any slashes |
| UrlSame.SchemeLeftOut | js/secsdk-lastest.umd.js:4997-5019 | against a base of the same special scheme "http:x" comes to what the reference "x" does, unless two slashes follow |
| UrlSame.AnyBaseDoubled | js/secsdk-lastest.umd.js:4961-5014 | a scheme and "://" come to the same against any base |
| UrlSame.NetworkReference | js/secsdk-lastest.umd.js:5020-5103 | "//host/path" comes to what the base's scheme with "://host/path" does |
| UrlSame.ReadFileHost | js/secsdk-lastest.umd.js:5251-5293 | the host of a file URL is read as that of a special URL, nothing and "localhost" as the empty one |
| UrlSame.LocalhostIsNone | js/secsdk-lastest.umd.js:5269-5293 | "file://localhost/x", in letters of either case, comes to what "file:///x" does |
| UrlBackslash.SlashesAlike | js/secsdk-lastest.umd.js:4958-5355 | in a text with a special scheme any backslash before the query and fragment may be a slash: the outcome and the URL are the same |
| UrlBackslash.ReferencesAlike | js/secsdk-lastest.umd.js:5020-5355 | and so in a reference against a special base |
| UrlWhole.WholeUrl | js/secsdk-lastest.umd.js:4933-5384 | a text with any userinfo, host and port and a path gives these parts, this path without dot segments, this query and this fragment, or fails for the first part that has no meaning |
| UrlWhole.PathlessUrl | js/secsdk-lastest.umd.js:4933-5384 | without a path a special URL has the path "/" and any other has none |
| UrlWhole.OpaqueUrl | js/secsdk-lastest.umd.js:5005-5366 | a scheme that is not special and no slash behind it: one opaque path |
| UrlWhole.HostlessUrl | js/secsdk-lastest.umd.js:5005-5355 | one slash behind such a scheme: a path without a host |
| UrlWhole.FileUrl | js/secsdk-lastest.umd.js:5210-5355 | a file URL with a host, if only the empty one, walks its path from it, a drive letter taking the host away |
| UrlWhole.FileWithoutHost | js/secsdk-lastest.umd.js:5210-5268 | "file:" and at most one slash, without a file as its base: a path without a host |
| UrlWhole.DriveIsNoHost | js/secsdk-lastest.umd.js:5269-5282 | "file://c:/x" comes to what "file:/c:/x" does: a drive letter is no host |
| UrlSetters.OverrideRuns | js/secsdk-lastest.umd.js:4933-5384 | under every state override there is a run on every text from every URL: the loop halts |
| UrlSetters.SettersKeep | js/secsdk-lastest.umd.js:5485-5570 | whatever text a setter is given and whether it is accepted or not, if nothing throws the URL is left well formed |
| UrlSetters.ProtocolExactly | js/secsdk-lastest.umd.js:4961-5019 | for every URL and text the exact URL: the lower-case scheme and no default port, or the URL as it was where the text is no scheme, or would turn a special URL into another kind or the other way round, or into a file with credentials or a port, or takes "file" from a URL without a host |
| UrlSetters.HostExactly | js/secsdk-lastest.umd.js:5147-5209 | outside files the text up to a delimiter is the host, read as any host is, and for `host` a number behind a colon the port; an empty host is refused in a special URL or beside credentials or a port, a refused text leaves the URL as it was |
| UrlSetters.FileHostExactly | js/secsdk-lastest.umd.js:5269-5293 | in a file URL nothing and "localhost" are the empty host, and there is no port |
| UrlSetters.PortSetExactly | js/secsdk-lastest.umd.js:5185-5209 | the number the text starts with is the port, none if it is the default of the scheme; no digit at all and a number above 65535 change nothing |
| UrlSetters.PathnameExactly | js/secsdk-lastest.umd.js:5294-5355 | the pieces of the text, "?" and "#" in it encoded too, are walked from an empty path; no text leaves no path where the scheme is not special |
| UrlSetters.SearchExactly | js/secsdk-lastest.umd.js:5367-5376 | the query is the whole text, encoded |
| UrlSetters.HashExactly | js/secsdk-lastest.umd.js:5377-5380 | the fragment is the whole text, encoded |
| UrlObject.UrlObject.SetProtocol | js/secsdk-lastest.umd.js:5493-5495 | the setter leaves exactly the URL of ProtocolExactly, for its text without tabs and newlines |
| UrlObject.UrlObject.SetHost | js/secsdk-lastest.umd.js:5530-5533 | an opaque URL stays; any other gets exactly what HostExactly or FileHostExactly say, the port included |
| UrlObject.UrlObject.SetHostname | js/secsdk-lastest.umd.js:5539-5542 | the same without the port |
| UrlObject.UrlObject.SetPort | js/secsdk-lastest.umd.js:5548-5553 | where there can be no port nothing changes; no text takes the port away, any other sets what PortSetExactly says |
| UrlObject.UrlObject.SetPathname | js/secsdk-lastest.umd.js:5563-5567 | an opaque URL stays; any other gets exactly the path of PathnameExactly and keeps all its other parts |
| UrlObject.UrlObject.SetSearch | js/secsdk-lastest.umd.js:5573-5583 | no text takes the query away; any other, without a first "?", becomes the query, encoded |
| UrlObject.UrlObject.SetHash | js/secsdk-lastest.umd.js:5593-5602 | the same for the fragment and "#" |
| UrlObject.UrlObject.SetUsername | js/secsdk-lastest.umd.js:5500-5507 | where there can be no username nothing changes; otherwise the loop leaves the text, encoded, as the username |
| UrlObject.UrlObject.SetPassword | js/secsdk-lastest.umd.js:5512-5519 | the same for the password |
| UrlNormal.TextEncoded | js/secsdk-lastest.umd.js:4832-4837 | percent-encoded text holds no character of its set, and only characters of the text and escapes |
| UrlNormal.ReadingForm | js/secsdk-lastest.umd.js:5386-5414 | every host the host parser reads is in normal form, and only the empty text gives an empty host |
| UrlOutputs.TurnTidies | js/secsdk-lastest.umd.js:4958-5383 | every turn of every state keeps what has been written so far in normal form |
| UrlOutputs.OutputNormal | js/secsdk-lastest.umd.js:4933-5384 | every URL that a run returns, against no base or one the parser gave, is in normal form |
| UrlPrinter.Serialize | js/secsdk-lastest.umd.js:5437-5463 | the output is the printed form, in all branches of the printer |
| UrlHostText.HostTextRead | js/secsdk-lastest.umd.js:4776-4805 | the printed host of any URL in normal form is read as that host, unless a label of it is encoded once more |
| UrlRoundTrip.FileSettles | js/secsdk-lastest.umd.js:4933-5463 | a printed file URL is parsed to the URL it settles to: a missing host becomes the empty one, and a drive letter drops the host and is written with a colon |
| UrlRoundTrip.HostlessLost | js/secsdk-lastest.umd.js:5043-5184 | no run on the text of a URL without a host whose path starts with an empty segment gives a URL without a host |
| UrlRoundTrip.ComesBackExactly | js/secsdk-lastest.umd.js:4933-5463 | for every URL in normal form and every base, any run on its printed text gives it back if and only if it comes back by its own parts |
| UrlHref.ConstructedNormal | js/secsdk-lastest.umd.js:4913-4928 | whatever text and base text `new URL` is given, a URL it makes is in normal form |
| UrlHref.HrefExactly | js/secsdk-lastest.umd.js:4913-5463 | the text of a URL in normal form survives trimming, and constructing from it gives the URL back exactly if it comes back |
| UrlHref.ConstructTwice | js/secsdk-lastest.umd.js:4913-5463 | for every text and base text, `new URL(new URL(text, base).href)` is the first URL again exactly if that comes back |
| UrlHref.SettledComesBack | js/secsdk-lastest.umd.js:4933-5463 | what a file URL settles to does come back |
| UrlLost.HostlessReached | js/secsdk-lastest.umd.js:5309-5355 | every run on "scheme:/.//x" gives the URL without a host whose path starts with an empty segment |
| UrlLost.HostlessExample | js/secsdk-lastest.umd.js:4933-5463 | "s:/.//x" has such a run, and its URL is in normal form and does not come back |
| UrlLost.HostlessAmbiguous | js/secsdk-lastest.umd.js:5437-5463 | two different URLs in normal form have one printed text, so no parser could give both back |
| UrlLost.FileReached | js/secsdk-lastest.umd.js:5210-5250 | "file:s" without a base has no host and does not come back |
| UrlLost.DriveReached | js/secsdk-lastest.umd.js:5269-5345 | a drive letter behind an empty segment keeps its bar and the host, and then does not come back |
| UrlLost.DelReached | js/secsdk-lastest.umd.js:4573-4590 | a label with a DEL is parsed to a host that the host parser does not read as itself |
| Uri.ScalarOctets | js/secsdk-lastest.umd.js:3819-3821 | the UTF-8 octets of a scalar value are accepted by the decoder, which reads that value, and the first octet tells their number |
| Uri.DecodeEscaped | js/secsdk-lastest.umd.js:3795-3806 | decoding the escapes of a scalar value gives it back and goes on behind them |
| FormUrlEncoded.Serialize | js/secsdk-lastest.umd.js:3920-3930 | the loop joins the printed entries, and throws exactly if some key or value holds a lone surrogate |
| FormUrlEncoded.ParseQuery | js/secsdk-lastest.umd.js:3902-3919 | the loop collects the parsed attributes in order and skips the empty ones |
| FormUrlEncoded.TextRoundTrip | js/secsdk-lastest.umd.js:3795-3821 | reading the printed form of any text without lone surrogates gives the text back, with "%20", "+", "&" and "=" in it |
| FormUrlEncoded.FormRoundTrip | js/secsdk-lastest.umd.js:3795-3930 | parsing the printed form of any list of entries without lone surrogates gives the list back, empty keys and values included |
| FormSpelling.TextRead | js/secsdk-lastest.umd.js:3777-3806 | a text is read unit by unit: "+" is a space, a code point in escapes of either case is that code point, anything else stays, also where some "%" starts no escape, if the escaped code points then stand apart |
| FormSpelling.BodyRead | js/secsdk-lastest.umd.js:3902-3919 | a body is read attribute by attribute: the value starts behind the first "=" and may hold others, without "=" it is empty, and empty attributes count for nothing |
| FormSpelling.ReadTwice | js/secsdk-lastest.umd.js:3779-3806 | escapes side by side in a text with a broken one may be read twice: "%25%341%" is read as "A%" |
| FormSpelling.PrintedExactly | js/secsdk-lastest.umd.js:3807-3821 | a key or value is printed code point by code point: letters, digits and "*-._" stay, a space is "+", anything else its octets in capital digits |
| Sort.StableSortUnique | js/secsdk-lastest.umd.js:3712-3748 | a list has at most one stable sorted arrangement, so the contract fixes the result |
| Sort.StableSortPermutes | js/secsdk-lastest.umd.js:3712-3748 | a stable sorted arrangement loses and invents no element |
| Sort.ArrangedStable | js/secsdk-lastest.umd.js:3712-3748 | insertion below eight elements and merging from eight on both give a sorted arrangement in which ties keep their order |
| Sort.MergedTies | js/secsdk-lastest.umd.js:3735-3744 | merging two sorted halves puts ties of the left half before ties of the right half |
| Sort.InsertAt | js/secsdk-lastest.umd.js:3719-3724 | one outer turn of the insertion sort places its element behind the last one it is not before, in place |
| Sort.MergeInto | js/secsdk-lastest.umd.js:3731-3744 | the merge loop writes the merge of the two copied halves over the array |
| Sort.SortArray | js/secsdk-lastest.umd.js:3712-3747 | whatever the comparator answers the array is permuted; if it tells a total preorder the array is the stable sort of what it was |
| Sort.KeysAreOrdered | js/secsdk-lastest.umd.js:4062-4066 | the comparator that answers -1 on equal keys still tells a total order of the keys, with ties exactly on equal keys |
| Sort.GreaterExactly | js/secsdk-lastest.umd.js:4062-4066 | keys compare by code units: the first difference decides, and of two that agree the longer comes after |
| Sort.SortEntries | js/secsdk-lastest.umd.js:4062-4068 | keys end up in code-unit order and the values of each key keep their order |
| ReactionQueue.Queue.Add | js/secsdk-lastest.umd.js:2195-2204 | the linked list holds what it held, and the item at the end |
| ReactionQueue.Queue.Get | js/secsdk-lastest.umd.js:2205-2212 | takes the first item off, or nothing from an empty queue |
| Promises.MoveBalanced | js/secsdk-lastest.umd.js:2451-2597 | every move keeps one live right to settle for each pending promise: a resolver, a queued job, a wrapper or a reaction in progress |
| Promises.OneRightEach | js/secsdk-lastest.umd.js:2551-2597 | in every run a pending promise has exactly one live right to settle it and a settled one none |
| Promises.SettledForever | js/secsdk-lastest.umd.js:2551-2597 | a promise leaves pending at most once, and its status and value never change afterwards, through thenables and a `then` that throws after resolving |
| Promises.ReactionsInOrder | js/secsdk-lastest.umd.js:2451-2497 | in every run the reactions of a promise that have run are a beginning of those registered on it, in order; none runs twice and none before the promise is settled |
| Promises.AllReactionsRun | js/secsdk-lastest.umd.js:2485-2497 | when the stack and the microtask queue are empty every reaction of a settled promise has run |
| PromiseLaws.RejectCall | js/secsdk-lastest.umd.js:2551-2558 | on the fields: a call of an unused rejecting function leaves its promise rejected with the argument and spends the pair |
| PromiseLaws.ResolveCall | js/secsdk-lastest.umd.js:2559-2583 | resolving with the promise itself rejects it with a TypeError; any other value spends the pair and is looked at first |
| PromiseLaws.UsedCall | js/secsdk-lastest.umd.js:2551-2560 | a call of a spent pair changes nothing |
| PromiseLaws.LookupAnswer | js/secsdk-lastest.umd.js:2559-2583 | a value that is no thenable fulfils the promise with it, an exception of the getter rejects it with that exception, and a thenable queues a microtask behind all others |
| PromiseLaws.ThenCall | js/secsdk-lastest.umd.js:2630-2650 | `then` makes one pending promise and one reaction for it, behind all others of a pending promise or in a microtask of its own |
| PromiseLaws.TaskStarts | js/secsdk-lastest.umd.js:2485-2497 | microtasks start in the order they were queued |
| PromiseLaws.RejectionPassed | js/secsdk-lastest.umd.js:2451-2479 | without a handler a rejection is passed on with its value |
| PromiseLaws.ResultTaken | js/secsdk-lastest.umd.js:2451-2479 | the derived promise is resolved with the result of its handler, or with the value it has none for; a result that is the derived promise itself rejects it, a thenable is called |
| PromiseLaws.HandlerFailed | js/secsdk-lastest.umd.js:2480-2483 | an exception of the handler rejects the derived promise with it |
| PromiseLaws.ThenableCalled | js/secsdk-lastest.umd.js:2569-2583 | an exception of a thenable's `then` rejects exactly if neither function of its pair was called; its return settles nothing |
| PromiseLaws.MoveSettles | js/secsdk-lastest.umd.js:2451-2597 | every step settles exactly the promise, the status and the value that its own fields say, and no other |
| PromiseLaws.SettledByOneStep | js/secsdk-lastest.umd.js:2551-2597 | in every run a settled promise has the status and value of the one step that settled it, and no other step settles it |
| PromiseLaws.FulfilledByCall | js/secsdk-lastest.umd.js:2559-2583 | in every run the value of a fulfilled promise is one that a resolving function of its own pair was called with, or that its handler gave |
| PromiseLaws.AllHandlersFinish | js/secsdk-lastest.umd.js:2451-2497 | when stack and microtask queue are empty the handler of every reaction of a settled promise has returned or thrown |
| PromiseRealm.Realm.Link | js/secsdk-lastest.umd.js:2195-2204 | adding a reaction to one promise's linked queue leaves the queues of all others as they were, and no entry in two of them |
| PromiseRealm.Realm.Create | js/secsdk-lastest.umd.js:2616-2627 | a new promise is pending, with a queue of its own, and is one move of the machine |
| PromiseRealm.Realm.ResolveWith | js/secsdk-lastest.umd.js:2559-2583 | a call of a resolving function, the promise's own or a wrapper's, is one move of the machine, and the fields show it |
| PromiseRealm.Realm.RejectWith | js/secsdk-lastest.umd.js:2551-2558 | so is a call of a rejecting function |
| PromiseRealm.Realm.LookupAnswered | js/secsdk-lastest.umd.js:2566-2597 | and the rest of resolving once the `then` getter has answered or thrown |
| PromiseRealm.Realm.Subscribe | js/secsdk-lastest.umd.js:2630-2650 | and `then`: the reaction goes to the promise's queue while it is pending and to a microtask otherwise |
| PromiseRealm.Realm.StartMicrotask | js/secsdk-lastest.umd.js:2488-2495 | and the start of a microtask: a notification, a late reaction, or the call of a thenable under its own wrapper |
| PromiseRealm.Realm.DrainTurn | js/secsdk-lastest.umd.js:2489-2494 | and a turn of the loop that takes the reactions off the queue |
| PromiseRealm.Realm.HandlerReturned | js/secsdk-lastest.umd.js:2451-2479 | and the rest of callReaction: a missing handler passes value or rejection on, the promise itself as a result rejects, a thenable is called |
| PromiseRealm.Realm.HandlerThrew | js/secsdk-lastest.umd.js:2480-2483 | and an exception of a handler |
| PromiseRealm.Realm.CallReturned | js/secsdk-lastest.umd.js:2468-2583 | and the return of a thenable's `then`, which settles nothing by itself |
| PromiseRealm.Realm.CallThrew | js/secsdk-lastest.umd.js:2480-2583 | and an exception of a thenable's `then`, which counts only if no resolving function was called before |
| PromiseRealm.Realm.EngineLaws | js/secsdk-lastest.umd.js:2451-2650 | after any sequence of these operations a pending record can be settled in exactly one way and a settled one in none, reactions have run in the order of registration, and all of them once no microtask is left |
| Dispatch.Dispatcher.RememberId | src/client.cpp:218-225 | remembers the id, forgets the oldest beyond the capacity, and keeps set and deque the same distinct ids |
| Dispatch.Dispatcher.DispatchMessage | src/client.cpp:495-515 | emits exactly the messages the bounded filter lets through, and keeps seen_ids_ equal to the elements of seen_order_ |
| Dispatch.Dispatcher.ProcessFetchResult | src/client.cpp:518-523 | dispatches a whole batch, also past the message that ends the LIVE |
| Dispatch.DeliveredSpaced | src/client.cpp:210-225 | any kMaxSeenIds + 1 consecutive nonzero ids delivered are pairwise distinct, for every order of arrivals |
| Dispatch.DroppedExactly | src/client.cpp:495-515 | after any arrivals a message is held back exactly if it has an id that is among the last kMaxSeenIds delivered |
| Dispatch.RepeatAfterCapOthers | src/client.cpp:210-225 | a nonzero id is delivered again only after kMaxSeenIds other, pairwise distinct ids |
| Dispatch.BoundedIsExact | src/client.cpp:495-523 | with at most kMaxSeenIds distinct ids the deliveries are exactly the first occurrences of the arrivals, id 0 always passing |
| Dispatch.EachIdOnce | src/client.cpp:495-523 | however two transports interleave, every id either of them carries is then delivered exactly once |
| Lifecycle.ReturnedRun | src/client.cpp:749-846 | every run that returns emitted Connect first, Disconnect last, each once, and all messages of both threads in between |
| Lifecycle.SomeRunReturns | src/client.cpp:749-846 | such runs exist |
| Lifecycle.UnfinishedRun | src/client.cpp:749-846 | at every moment before that nothing precedes Connect and no Disconnect has been emitted |
| Lifecycle.OneMoreBatch | src/client.cpp:661-683 | once a stop is requested or the LIVE has ended, each transport dispatches messages of at most one batch or frame |
| Lifecycle.CallbacksSeeFirstOccurrences | src/client.cpp:495-523 | in every interleaving the callbacks see the arrivals spaced as above, and exactly their first occurrences within the capacity |
| Lifecycle.GivesUpExactly | src/client.cpp:698-747 | the driver answers false exactly if fallback is allowed and either the only session never connected or the last six sessions were handshake failures; in dual mode never |
| Lifecycle.BackoffChoices | src/client.cpp:734-736 | every backoff is 300 ms or 500k ms with k in 1..5, and always 300 ms in dual mode |
| LifecycleLaws.NothingLost | src/client.cpp:596-683 | in every run and for each transport, what has arrived from it, followed by what it has in hand, is the concatenation of all batches and frames it was handed, in order |
| LifecycleLaws.AllDispatched | src/client.cpp:749-846 | when the run has returned nothing is left in hand |
| LifecycleLaws.FallbackPolls | src/client.cpp:809-827 | with the socket alone the run polls before it tears down exactly if the driver gave the socket up; in the other modes it always does; and the polling loop is over by then |
| LifecycleLaws.GivesUpByAttempts | src/client.cpp:698-747 | the sessions are the attempts to connect, in order, and the driver gives the socket up exactly if that is allowed and the only attempt ever failed or the last six did |
| LifecycleLaws.FlagsMeaning | src/client.cpp:495-523 | whatever the interleaving, stop_requested, live_ended and running are set and cleared exactly by a stop, by an emitted end of the LIVE, and by the teardown |
| LifecycleLaws.EndsForReason | src/client.cpp:661-747 | the driver answers true, and the polling loop is over, only once a flag asks for the end |
| LifecycleLaws.OneMoreTaken | src/client.cpp:661-683 | from the moment a flag asks for the end a transport is handed at most one more batch or frame |
| LifecycleLaws.OneMoreSession | src/client.cpp:698-747 | and the driver makes at most one more session and waits at most once more |
| LifecycleLaws.WaitsExactly | src/client.cpp:734-736 | a wait is 300 ms, or with the socket alone 500 ms for each attempt that has failed since the last that did not |
| WsReassembly.WsClient.RecvBinary | src/ws_client.cpp:87-123 | for every combination of flags what is returned and what stays in the buffer: only a final data frame with nothing left to come hands the buffer over, and an empty message is not reported |
| WsReassembly.StatusExactly | src/ws_client.cpp:87-123 | read backwards: which link and input each status, each change of the buffer and each change of the link come from, exactly |
| WsReassembly.WsClient.Connect | src/ws_client.cpp:31-73 | opening a link leaves the reassembly buffer as it was |
| WsReassembly.WsClient.ReceiveAll | src/ws_client.cpp:87-123 | repeated calls return the messages of the session and leave the state it leads to |
| WsReassembly.SessionDelivers | src/ws_client.cpp:87-123 | for every stream of messages in fragments in chunks, control frames anywhere and any bytes left in the buffer, exactly which texts are delivered, in order |
| WsReassembly.MessagesWholeExactly | src/ws_client.cpp:87-123 | from an empty buffer the non-empty messages are returned whole and in order if and only if no payload stands before a control frame inside its message; stalls between chunks do not matter |
| WsReassembly.NoInnerControl | src/ws_client.cpp:87-123 | it is enough that no control frame stands inside a message |
| WsReassembly.DeadLinkIsSilent | src/ws_client.cpp:88-99 | after a close or a failure nothing more is delivered and the buffer stays |
| JsonText.JsonObjectField | src/client.cpp:159-178 | the code returns the text of the first object behind the key, as the scan as a function of the text gives it |
| JsonText.ScanObject | src/client.cpp:163-176 | the scanning loop finds the end of the scan, or none |
| JsonText.ObjectCloses | src/client.cpp:163-176 | from its opening brace the scan ends exactly at the object's closing brace, for trees of any depth with braces, quotes and backslashes in their strings |
| JsonText.ObjectFieldExact | src/client.cpp:159-178 | positioned at its key the scanner returns exactly the printed object, whatever follows |
| JsonText.FindExactly | src/client.cpp:159-162 | the needle is found where it stands first, and not at all only where it stands nowhere |
| JsonText.ObjectFieldNothing | src/client.cpp:159-178 | without the key, or with its object cut off by the end of the text, the answer is empty |
| JsonText.WalkGiftArray | src/client.cpp:405-427 | the nested loops cut the array as the walk as a function of the text does |
| JsonText.GiftArrayExact | src/client.cpp:399-427 | a printed array is cut into exactly its objects, in order, and nothing behind its "]" is read |
| JsonText.GiftArrayCutOff | src/client.cpp:399-427 | a gift cut off by the end of the text comes last, as far as it goes |
| JsonString.JsonQuote | src/qjs_signer.cpp:34-55 | the loop writes the quoted body between quotes |
| JsonString.JsonUnescape | src/client.cpp:95-122 | the loop agrees with unescaping as a function of the text, with the exceptions of reading the number of an escape |
| JsonString.UnescapeUndoesQuote | src/client.cpp:95-122 | every byte string comes back from its quoted body, control characters included |
| JsonString.QuoteBodyEscaped | src/qjs_signer.cpp:34-55 | the printed body is a proper string body, so it may stand in any printed tree |
| JsonString.JsonStringField | src/client.cpp:126-138 | the code returns the unescaped raw text behind the first match of the key |
| JsonString.StringFieldExact | src/client.cpp:126-138 | positioned at its key it returns exactly the bytes that json_quote printed: the scan stops at the printer's own closing quote |
| JsonString.StringFieldCutOff | src/client.cpp:126-138 | without the key the answer is empty, and a string the text cuts off is read as far as it goes |
| JsonSpelling.SpellingRead | src/client.cpp:95-122 | every spelling of a string in section 7 of RFC 8259 is read without an exception, and as what |
| JsonSpelling.SpellingExact | src/client.cpp:95-122 | it is read as the string it spells if and only if it holds no \b, no \f and no \u from 0080 on |
| JsonSpelling.FieldExact | src/client.cpp:126-138 | and so at its key in any text |
| JsonSpelling.StoiReads | src/client.cpp:103-107 | of other text behind \u the number is read as std::stoi does: blanks, a sign, "0x" and as many digits as there are |
| JsonSpelling.StoiThrows | src/client.cpp:103-107 | and it throws where no digit stands behind blanks and sign |
| JsonSpelling.QuotedExactly | src/qjs_signer.cpp:34-55 | json_quote writes every byte as it stands but quote, backslash and control characters, which it escapes; what it writes spells the bytes |
| Query.AppendEncoded | src/web_defaults.cpp:71-86 | appends the encoded bytes |
| Query.EncodeQuery | src/web_defaults.cpp:88-99 | the loop with its `first` flag writes the pairs joined by "&" |
| Query.QueryRoundTrip | src/web_defaults.cpp:71-99 | the decoder of RFC 3986 gives back every list of byte-string parameters, empty keys and values included |
| Query.EncodingInjective | src/web_defaults.cpp:88-99 | different parameter lists have different encodings |
| Query.EncodedQueryText | src/web_defaults.cpp:71-99 | the output holds unreserved characters, "%", "=" and "&" only, and every "%" starts an upper-case escape |
| Query.UnreservedStay | src/web_defaults.cpp:71-86 | a text is left as it is exactly if it holds only unreserved characters |
| Query.BytesExactly | src/web_defaults.cpp:71-86 | letters, digits and "-_.~" are written as they are, any other byte as "%" and two capital digits |
| Utf8.Encode | js/hybrid-fake-dom.js:168-179 | the loop, its index running past the end on a final surrogate, encodes every turn |
| Utf8.Decode | js/hybrid-fake-dom.js:184-196 | the loop, its index running past the end on a cut sequence, decodes every turn |
| Utf8.EncodedIsUtf8 | js/hybrid-fake-dom.js:168-179 | for every well-formed text the bytes are, code point by code point, the form of section 3 of RFC 3629: length, marker bits and payload bits |
| Utf8.RoundTripExactly | js/hybrid-fake-dom.js:166-197 | decoding the encoding of a text gives the text back if and only if every surrogate in it stands in a pair |
| Utf8.ReadExactly | js/hybrid-fake-dom.js:184-196 | of any bytes at all one turn reads the low bits of as many bytes as the first one announces, zeros past the end, and writes two units for every four bytes |
| Timers.TimerQueue.Set | js/hybrid-fake-dom.js:1052-1060 | the id is new; functions and texts are queued behind all others, anything else only uses up the id |
| Timers.TimerQueue.Clear | js/hybrid-fake-dom.js:1061-1064 | exactly the pending timer with that id leaves the queue, for good |
| Timers.TimerQueue.Frame | js/hybrid-fake-dom.js:1071-1073 | a frame request uses up an id and calls back at once, within the same invariant |
| Timers.TimerQueue.Run | js/hybrid-fake-dom.js:1052-1073 | whatever operations a callback performs, nested frames and drains included, queue, counter and fired timers are those of its operations as a function of the state; the fired ids followed by the queued ones stay strictly increasing and not above the counter, and the fired, pending and cleared timers share out the scheduled ones |
| Timers.EveryRequest | js/hybrid-fake-dom.js:1052-1060 | a callback that asks for timers leaves every one of them at the end of the queue, in order, with consecutive ids |
| Timers.OtherRequests | js/hybrid-fake-dom.js:1052-1073 | what is no function and no text uses up an id, and clearing takes out the timer with the id and no other |
| Timers.FramesInPlace | js/hybrid-fake-dom.js:1071-1073 | a frame's callback runs where the frame is asked for |
| Timers.DrainFires | js/hybrid-fake-dom.js:1315-1325 | a drain fires the first timer of the queue and goes on until none is left or 5000 have fired; inside another one it does nothing |
| Timers.TimerQueue.DrainDeferred | js/hybrid-fake-dom.js:1315-1325 | one drain fires at most 5000 timers, empties the queue if it fires fewer, and does nothing inside another drain; it halts although callbacks schedule more |
| Timers.EachFate | js/hybrid-fake-dom.js:1052-1064 | whenever the invariant holds no timer has fired twice, and a cleared or a pending one has not fired |
| Merge.MergeValues | js/dw-index.js:2112-2140 | the recursive merge with its loops computes the join, whatever the order of the fields |
| Merge.JoinExtendsBoth | js/dw-index.js:2112-2140 | a valid result extends both sides |
| Merge.JoinLeast | js/dw-index.js:2112-2140 | every tree that extends both sides extends the result |
| Merge.JoinValidExactly | js/dw-index.js:2112-2140 | the merge is valid exactly if some tree extends both sides and no NaN or invalid date stands at one place of both |
| Merge.JoinCommutes | js/dw-index.js:2112-2140 | both orders give the same answer |
| Merge.JoinIdempotent | js/dw-index.js:2112-2140 | a tree merged with a copy of itself comes back, exactly if it holds no NaN or invalid date |
| Merge.JoinAssociates | js/dw-index.js:2112-2140 | both groupings of three trees are valid together and equal |
| Merge.GroupingExactly | js/dw-index.js:2112-2140 | a grouping of three is valid exactly if the three have a common extension and no self-unequal leaves meet, and is then the least one |

## Left out

- Network, TLS, curl, protobuf, zlib, the QuickJS engine and file lookup: frames, fetch results and failures are arbitrary inputs of a step.
- The DOM stubs, the event parser, the CSRF token class and the rest of the schema library: each branch is settled by reading it.
- Native `toLowerCase` is a parameter that maps text to text; what is proved of normal forms and round trips takes of it that it lowers ASCII letters and nothing else in ASCII text, leaves no capital ASCII letter and never gives the empty text for another (`UrlHost.IsLowering`); `encodeURIComponent`, `decodeURIComponent` and `parseInt` are modelled by their meaning in ECMA-262.
- URL buffers are sequences of code points where the source has UTF-16 text: it splits the text into code points before any use of a character.
- The getters of the URL object, its `href` setter, which parses and throws as the constructor does, the link between its query and searchParams, and the two-argument `delete` of URLSearchParams.
- UrlSetters.SettersKeep: a lone surrogate given to a setter makes percent-encoding throw with the part half written, so nothing is said of the URL after an exception; nor is it said to be in normal form.
- FormSpelling.TextRead: escaped code points side by side in a text with a broken escape are not given a closed form; ReadTwice shows that they need not be read once each.
- UrlReference.FileDotReference: a segment that becomes a drive letter at the start of an empty file path is left to UrlReference.PathReference, which says what the walk does without the closed form.
- Promises: unhandled-rejection tracking, domains and subclass constructors; promise records are named by their index, and a call into user code splits an operation of the engine in two.
- Merge.MergeValues: one and the same object on both sides is valid at once in the source, also with NaN inside; the model compares copies. Negative zero is the same atom as zero.
- Lifecycle: sleeping, heartbeats and acknowledgements change none of the modelled state and are left out; user callbacks neither throw nor call back into the client.
- JsonText.ScanObject: the brace depth is unbounded, where the source's `int` would overflow beyond 2147483647 open braces.
- Message loss over a reconnect and reassembly across connections are not claimed: the source discards the messages of the reconnect fetch, and `connect` keeps the buffer.
- `atob` and `btoa` of the shim: the padding is stripped before missing characters are looked up, so only lengths divisible by three would come back.
- Sort: a comparator that answers NaN, which is neither above nor at most zero.
- Timers: the delay is stored but never read by the source, and a callback is given by the finite list of operations it performs.
