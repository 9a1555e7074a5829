# Network monitor core: STOMP frames and the transport network

This project models two parts of a C++ network-monitor service for a
metro network and proves properties of them.

- **The STOMP 1.2 frame codec** (`StompFrame`). The codec turns a frame's
  text into a command, a header table and a body. It checks the result
  against the headers each command requires and against `content-length`.
  It also writes a frame back out as text.
- **The transport network** (`TransportNetwork`). This is a graph of
  stations joined by the edges of the routes of each line. It tracks a
  passenger count per station and a travel time per edge. It can add
  stations and lines, record passengers getting in and out, list the
  routes serving a station, and answer travel-time queries.

Files and modules:

- `stomp_types.dfy` (`Wrappers`, `StompTypes`)
  - The commands, header names and error codes.
  - The two lookup tables that map them to their wire spelling and back.
  - The table of required headers.
- `stomp_numbers.dfy` (`StompNumbers`)
  - `std::stoi` and `std::from_chars` on decimal text.
  - The conversion of an `int` to `size_t`.
- `stomp_codec.dfy` (`StompCodec`)
  - The parse of a frame as pure functions: `Parse`, built from `ScanHeaders`, `ScanBody` and `Validate`.
  - The text of a written frame: `FrameText`.
  - The facts the imperative code is proved against.
- `stomp_frame.dfy` (`StompFrames`)
  - The `StompFrame` class, which holds a command, a header map and a body that `ParseAndValidateFrame` updates in place.
  - `ConstructFrame`.
  - The parse loops as methods, each proved to compute the matching function of `StompCodec`.
- `stomp_properties.dfy` (`StompProperties`)
  - The round trip between writing and parsing.
  - Each error path of the parser.
- `transit_graph.dfy` (`TransitGraph`)
  - The network as a value.
  - One specification function per operation of `TransportNetwork`.
  - The validity invariant.
  - The lemmas the route travel-time loop is proved with.
- `transit_properties.dfy` (`TransitProperties`)
  - The invariant is kept by every operation.
  - What each operation changes and what it leaves alone.
  - The inverse of passenger events.
  - Travel-time symmetry after `SetTravelTime`.
  - Composition of travel times along a route.
  - Membership in the routes serving a station.
- `transport_network.dfy` (`TransportNetworks`)
  - The `TransportNetwork` class, with its station table, line table and route counter as fields.
  - Each method is proved to produce its specification function's outcome and new state.

How the model represents the C++ state:

- **Pointers.** Stations are named by their ids. A station's `shared_ptr` identity is therefore its id, which is unique in the station table.
- **Route objects.** A `RouteInternal` object is named by a `RouteKey`: the serial number of its allocation plus its route id.
  - An edge refers to its route through this key, so two route objects with the same id stay distinct, as the pointers are.
  - A route object that is allocated but then refused still uses up a serial.
- **Travel times** are `uint32_t`: values below 2^32, summed modulo 2^32.
- **Frame text.** Each Dafny `char` stands for one byte of the C++ `std::string`, so a body's length is its size in bytes, as `content-length` counts it. Characters above 255 do not occur in the C++ input.
- **`GetPassengerCount`.** Where the C++ throws, the model returns `None`.
- **`ParseAndValidateFrame`.** Where `std::stoi` throws, the model reports the parse outcome `Threw`.

## Model

| member | source | states |
|---|---|---|
| StompTypes.CommandString | src/StompFrame.cpp:63-90 | every command's wire spelling is non-empty and holds no line feed |
| StompTypes.CommandTableRoundTrip | src/StompFrame.cpp:63-81 | looking up the spelling of any command gives back that command, so the command table is one-to-one |
| StompTypes.CommandFromStringSound | src/StompFrame.cpp:241-245 | the reverse command lookup is exact: a found command is spelled exactly as the text, and when none is found no command has that spelling |
| StompTypes.HeaderString | src/StompFrame.cpp:98-129 | every header name's spelling is non-empty and holds neither a line feed nor a colon |
| StompTypes.HeaderTableRoundTrip | src/StompFrame.cpp:98-120 | looking up the spelling of any header name gives back that header name |
| StompTypes.HeaderFromStringSound | src/StompFrame.cpp:266-270 | the reverse header lookup is exact, in both directions |
| StompNumbers.Stoi | src/StompFrame.cpp:292 | `std::stoi` returns only values within the range of `int`; otherwise it throws |
| StompNumbers.FromChars | src/StompFrame.cpp:389-396 | `std::from_chars` fails with `invalid_argument` exactly when the text does not start with a digit; the values it returns fit in `size_t` |
| StompNumbers.ToSizeT | src/StompFrame.cpp:292 | assigning an `int` to `size_t` keeps a non-negative value and adds 2^64 to a negative one |
| StompNumbers.NatToDecimal | src/StompFrame.cpp:389-399 | the decimal spelling of a number is a non-empty run of digits whose value is the number |
| StompNumbers.FromCharsAgreesWithStoi | src/StompFrame.cpp:292 | on text that starts with a digit, `stoi` and `from_chars` agree, except that `stoi` throws above the `int` range |
| StompNumbers.CanonicalDecimalReadsBack | src/StompFrame.cpp:389-399 | both readers read the decimal spelling of a number in the `int` range back as that number |
| StompNumbers.SignAndSpaceQuirks | src/StompFrame.cpp:389-396 | `stoi` accepts a leading `+`, `-` or space, while `from_chars` refuses all three |
| StompCodec.Find | src/StompFrame.cpp:235 | the index found is the first occurrence of the character; nothing is found only when the character does not occur |
| StompCodec.GetHeaderValue | src/StompFrame.cpp:51-59 | the value stored for a header, or the empty string when the header is absent |
| StompCodec.LexHeaderLineSound | src/StompFrame.cpp:256-270 | a header line that lexes is a header name's spelling, a colon and a non-empty value; otherwise it fails with one of the three line errors |
| StompCodec.LexHeaderLineOfText | src/StompFrame.cpp:256-274 | a line written as name, colon and non-empty value lexes back to that name and value |
| StompCodec.KeepFirst | src/StompFrame.cpp:271-276 | a repeated header keeps its first value; the new key is added and every earlier entry is unchanged |
| StompCodec.ScanLineSound | src/StompFrame.cpp:250-279 | one header line consumes a prefix of the text and keeps every earlier entry and the line-safety of values; its failures are exactly the header-line errors |
| StompCodec.ScanHeadersSound | src/StompFrame.cpp:248-282 | the header section consumes a proper prefix of the text, keeps earlier entries and keeps values line-safe; its failures are the header-line errors and `ErrorBodyNoNewLine` |
| StompCodec.ScanBodySound | src/StompFrame.cpp:284-316 | a body that is found is a prefix followed by a NUL and only line feeds. Without `content-length` it holds no NUL; with `content-length` its length is the converted value. Only `stoi` throws |
| StompCodec.Validate | src/StompFrame.cpp:331-403 | validation succeeds exactly when the command is known, its required headers are present, and a `content-length` reads as the body's length. It fails with `ErrorUnknown`, `ErrorHeaderMissing`, `ErrorHeaderContentLength` or `ErrorBodyLength`, in that order of checks |
| StompCodec.ParseStoresOnlyOnOk | src/StompFrame.cpp:318-328 | a parse that does not return `Ok` stores nothing, and one that does stores a known command |
| StompFrames.ConstructFrame | src/StompFrame.cpp:21-44 | the text is the command line, one line per header (each entry exactly once, in some order), a blank line, the body and a NUL |
| StompFrames.StompFrame.constructor | inc/network-monitor/StompFrame.h:167-169 | a default frame has command `Unknown`, no headers and an empty body |
| StompFrames.StompFrame.Copy | src/StompFrame.cpp:199 | a copy holds the same command, headers and body |
| StompFrames.StompFrame.Assign | src/StompFrame.cpp:203 | after assignment the frame holds the other frame's command, headers and body |
| StompFrames.StompFrame.FromString | src/StompFrame.cpp:171-185 | constructing from text reports the parse's outcome and holds the parsed frame, or the empty frame when the parse fails |
| StompFrames.StompFrame.FromParts | src/StompFrame.cpp:187-197 | constructing from parts is parsing the text `ConstructFrame` writes for them |
| StompFrames.StompFrame.GetHeaderValue | src/StompFrame.cpp:211-213 | the stored value of the header, or the empty string |
| StompFrames.StompFrame.ToString | src/StompFrame.cpp:219-226 | the text is the command line, each stored header once (in some order), a blank line, the body and a NUL, without validating the frame again |
| StompFrames.StompFrame.ParseAndValidateFrame | src/StompFrame.cpp:228-329 | the returned code is the parse's outcome; the frame changes only on `Ok`, and then holds the parsed command, headers and body |
| StompFrames.ParseHeaderLines | src/StompFrame.cpp:247-282 | the header loop ends after the blank line with the scanned headers, or with the scan's error |
| StompFrames.ParseHeaderLine | src/StompFrame.cpp:252-278 | one turn of the header loop reads exactly one line, as `ScanLine` does |
| StompFrames.ParseBody | src/StompFrame.cpp:284-310 | the body is read exactly as `ScanBody` reads it |
| StompFrames.OnlyNewLinesFrom | src/StompFrame.cpp:311-315 | the trailer check passes exactly when only line feeds follow the NUL |
| StompProperties.RoundTrip | src/StompFrame.cpp:187-197 | parsing a written frame, in any header order, gives back exactly that frame if and only if the frame is well formed |
| StompProperties.WrittenFrameParses | src/StompFrame.cpp:219-226 | the text of a well-formed frame parses back to that frame |
| StompProperties.AcceptedIsWellFormed | src/StompFrame.cpp:228-329 | every frame a parse accepts is well formed |
| StompProperties.ReparseAccepted | src/StompFrame.cpp:219-226 | writing out an accepted frame and parsing the text again gives the same outcome |
| StompProperties.ScanWrittenLines | src/StompFrame.cpp:250-279 | the header loop reads written lines one by one, keeping the first value of each key |
| StompProperties.ScanWrittenHeader | src/StompFrame.cpp:247-282 | written header lines followed by a blank line scan to the map of their first values |
| StompProperties.KeepAllOfEnumeration | src/StompFrame.cpp:271-276 | reading back one line per entry of a header map gives that map |
| StompProperties.FirstOccurrenceWins | src/StompFrame.cpp:271-276 | the value of a key is the value on its first line |
| StompProperties.KeepAllKeeps | src/StompFrame.cpp:271-276 | a key that already has a value keeps it through any later lines |
| StompProperties.CommandLineOfText | src/StompFrame.cpp:235-245 | the command line of a written frame ends at the first line feed and looks up to its command |
| StompProperties.ScanWrittenBody | src/StompFrame.cpp:284-316 | the body of a well-formed frame followed by its NUL is read back |
| StompProperties.NoCommandLine | src/StompFrame.cpp:235-238 | text without a line feed fails with `ErrorHeaderEmpty` |
| StompProperties.UnknownCommandLine | src/StompFrame.cpp:241-244 | a first line that spells no command fails with `ErrorCommandInvalid` |
| StompProperties.UnknownCommandRefusedByValidation | src/StompFrame.cpp:376-380 | a frame whose command line is `UNKNOWN COMMAND` parses but is refused with `ErrorUnknown` |
| StompProperties.BadHeaderLine | src/StompFrame.cpp:258-270 | a header line that does not lex, after any good lines, fails the parse with that line's error |
| StompProperties.HeaderLineWithoutNewLine | src/StompFrame.cpp:252-255 | a last header line with no line feed fails with `ErrorHeaderMissingNewLine` |
| StompProperties.NoBlankLine | src/StompFrame.cpp:280-282 | header lines that end the text without a blank line fail with `ErrorBodyNoNewLine` |
| StompProperties.HeaderLineShapeErrors | src/StompFrame.cpp:258-264 | a header line fails with `ErrorHeaderMissingSemicolon` exactly when it has no colon. It fails with `ErrorHeaderEmptyValue` exactly when its first colon ends it |
| StompProperties.HeaderLineInvalidKey | src/StompFrame.cpp:266-270 | a line with a value fails with `ErrorHeaderInvalidKey` exactly when no header name is spelled like its key |
| StompProperties.BodyWithoutNul | src/StompFrame.cpp:304-308 | without `content-length`, a body with no NUL after it fails with `ErrorBodyMissingNull` |
| StompProperties.DeclaredLengthTooLong | src/StompFrame.cpp:292-298 | a declared length equal to the rest of the text fails with `ErrorBodyMissingNull`; one beyond it fails with `ErrorBodyLength` |
| StompProperties.DeclaredEndNotNul | src/StompFrame.cpp:299-302 | a declared length inside the text whose end is not a NUL fails with `ErrorBodyMissingNull` |
| StompProperties.NegativeContentLength | src/StompFrame.cpp:292-298 | a negative `content-length` wraps to a huge `size_t` and fails with `ErrorBodyLength` |
| StompProperties.UnreadableContentLengthThrows | src/StompFrame.cpp:292 | a `content-length` that `stoi` cannot read makes the parse throw |
| StompProperties.ContentLengthAllowsNul | src/StompFrame.cpp:289-303 | with `content-length` the body may hold NUL bytes; only the declared end must be a NUL |
| StompProperties.TrailingGarbage | src/StompFrame.cpp:311-315 | without `content-length`, anything but line feeds after the terminating NUL fails with `ErrorWrongSymbolAfterBody` |
| StompProperties.TrailingGarbageWithLength | src/StompFrame.cpp:289-315 | with `content-length`, anything but line feeds after the NUL at the declared end fails with `ErrorWrongSymbolAfterBody` |
| StompProperties.TrailingNewLines | src/StompFrame.cpp:311-315 | any number of line feeds may follow the terminating NUL |
| TransitGraph.IndexOf | src/TransportNetwork.cpp:296-303 | the index found is the first stop equal to the station; nothing is found only when the station is not a stop |
| TransitProperties.StationAddedValid | src/TransportNetwork.cpp:112-125 | adding a station keeps the network valid |
| TransitProperties.RouteAddedValid | src/TransportNetwork.cpp:364-409 | adding a route keeps the network valid, and a line that was valid stays valid |
| TransitProperties.RoutesAddedValid | src/TransportNetwork.cpp:138-141 | adding the routes of a line one by one keeps the network and the line valid |
| TransitProperties.LineAddedValid | src/TransportNetwork.cpp:127-146 | adding a line keeps the network valid |
| TransitProperties.EventRecordedValid | src/TransportNetwork.cpp:148-169 | recording a passenger event keeps the network valid |
| TransitProperties.TravelTimeSetValid | src/TransportNetwork.cpp:218-243 | setting a travel time keeps the network valid |
| TransitProperties.StationAddedEffect | src/TransportNetwork.cpp:112-125 | adding a station succeeds exactly when its id is new. It adds one station with no passengers and no edges and changes no other station and no line |
| TransitProperties.AddEdgesEffect | src/TransportNetwork.cpp:394-405 | adding a route's edges keeps the set of stations. It appends to each station exactly the route's edges that start there, after its earlier edges |
| TransitProperties.EdgesFromPairs | src/TransportNetwork.cpp:394-405 | the edges a route adds at a station are exactly its edges, of time 0, to the stop after each visit of that station |
| TransitProperties.RouteAddedEffect | src/TransportNetwork.cpp:364-409 | adding a route succeeds exactly when its id is new in the line and all its stops are stations. On success the route is filed with a fresh route object and every station gains the route's edges from it. On failure stations and line are unchanged. The line table is never touched |
| TransitProperties.RoutesAddedAccepts | src/TransportNetwork.cpp:138-141 | all routes of a line are added exactly when their ids are new and distinct and all their stops are stations |
| TransitProperties.RoutesAddedContents | src/TransportNetwork.cpp:138-141 | after all routes are added, the line holds each of them under its own id with its own name and stops, beside its earlier routes |
| TransitProperties.LineAddedEffect | src/TransportNetwork.cpp:127-146 | adding a line succeeds exactly when its id is new, its route ids are distinct and all stops are stations. It then registers the line with all its routes and no other line changes. A refused line is not registered |
| TransitProperties.EventRecordedEffect | src/TransportNetwork.cpp:148-169 | an event succeeds exactly for a known station. It moves that station's count up by one for `In` and down by one for `Out`, and changes nothing else; a refused event changes nothing |
| TransitProperties.InThenOutRestores | src/TransportNetwork.cpp:157-163 | a passenger getting in and then out of a station leaves the network as it was |
| TransitProperties.PassengerCountKnown | src/TransportNetwork.cpp:171-181 | the passenger count is defined exactly for the stations of the network, a station added under a new id has the count 0 |
| TransitProperties.EdgeTimesSetTargets | src/TransportNetwork.cpp:231-238 | setting edge times never changes where edges lead |
| TransitProperties.EdgeTimesSetNone | src/TransportNetwork.cpp:231-238 | with no edge to the target, setting times changes nothing |
| TransitProperties.FirstEdgeToFound | src/TransportNetwork.cpp:256-266 | there is a first edge to a station exactly when some edge leads there, and it does |
| TransitProperties.FirstEdgeToAfterSet | src/TransportNetwork.cpp:231-238 | after the times of the edges to a station are set, the first of them has the new time |
| TransitProperties.TravelTimeSetEffect | src/TransportNetwork.cpp:218-243 | `SetTravelTime` succeeds exactly when both stations are known and an edge joins them in either direction. It then makes the travel time between them, read either way, the new time; otherwise nothing changes. It touches no other station, no passenger count and no line |
| TransitProperties.TravelTimeUnknownStation | src/TransportNetwork.cpp:250-254 | the travel time involving an unknown station is 0, in either order |
| TransitProperties.TravelTimeOneWay | src/TransportNetwork.cpp:256-268 | between two known stations where `b` has no edge to `a`, the travel time reads the same both ways |
| TransitProperties.RouteSumZero | src/TransportNetwork.cpp:294-322 | the travel time along a route is 0 when the destination is not a stop, or the origin is not a stop before its first visit |
| TransitProperties.RouteSumAt | src/TransportNetwork.cpp:294-322 | between the first visits of two stops, the travel time along a route is the 32-bit sum of the route's edge times out of each stop in between, or 0 when one of them has no edge of the route |
| TransitProperties.RouteSumAdjacent | src/TransportNetwork.cpp:294-322 | between consecutive stops, the travel time along the route is the time of the route's edge between them |
| TransitProperties.PathTimeAppend | src/TransportNetwork.cpp:318-320 | the time of a stretch of stops is the sum of the times of its parts, and is defined exactly when theirs are |
| TransitProperties.PathTimeSplit | src/TransportNetwork.cpp:318-320 | the 32-bit time of a stretch of stops is the 32-bit sum of the 32-bit times of its two parts. So route times compose through any stop visited between the two ends |
| TransitProperties.RoutesEndingMembers | src/TransportNetwork.cpp:207-212 | a route id is listed for a line exactly when a route of that line with that id ends at the station |
| TransitProperties.LinesEndingMembers | src/TransportNetwork.cpp:206-213 | a route id is listed exactly when some line has a route with that id ending at the station |
| TransitProperties.RoutesServingMembers | src/TransportNetwork.cpp:183-216 | `GetRoutesServingStation` lists a route id exactly when the station is known and either an edge leaving it belongs to a route with that id, or some line has a route with that id ending there |
| TransportNetworks.TransportNetwork.constructor | src/TransportNetwork.cpp:33 | a new network has no stations and no lines, and is valid |
| TransportNetworks.TransportNetwork.Copy | src/TransportNetwork.cpp:37-39 | a copy holds the same stations, lines and route counter |
| TransportNetworks.TransportNetwork.Assign | src/TransportNetwork.cpp:45-47 | after assignment the network holds the other network's state |
| TransportNetworks.TransportNetwork.AddStation | src/TransportNetwork.cpp:112-125 | the result and the new network are those of `StationAdded`, and the network stays valid |
| TransportNetworks.TransportNetwork.AddLine | src/TransportNetwork.cpp:127-146 | the result and the new network are those of `LineAdded`, and the network stays valid |
| TransportNetworks.TransportNetwork.AddRouteToLine | src/TransportNetwork.cpp:364-409 | the result, the new network and the updated line are those of `RouteAdded` |
| TransportNetworks.TransportNetwork.RecordPassengerEvent | src/TransportNetwork.cpp:148-169 | the result and the new network are those of `EventRecorded`, and the network stays valid |
| TransportNetworks.TransportNetwork.GetPassengerCount | src/TransportNetwork.cpp:171-181 | the count of a known station, or `None` where the C++ throws |
| TransportNetworks.TransportNetwork.GetRoutesServingStation | src/TransportNetwork.cpp:183-216 | the list is `RoutesServing`: the route ids of the station's edges, then the ids of the routes that end there |
| TransportNetworks.TransportNetwork.RouteIdsOfEdges | src/TransportNetwork.cpp:194-197 | the route id of each edge, in order |
| TransportNetworks.TransportNetwork.RoutesEndingIn | src/TransportNetwork.cpp:206-213 | the ids of the routes ending at the station, line by line |
| TransportNetworks.TransportNetwork.RoutesEndingAt | src/TransportNetwork.cpp:207-212 | the ids of one line's routes ending at the station |
| TransportNetworks.TransportNetwork.SetTravelTime | src/TransportNetwork.cpp:218-243 | the result and the new network are those of `TravelTimeSet`, and the network stays valid |
| TransportNetworks.TransportNetwork.SetEdgeTimes | src/TransportNetwork.cpp:231-238 | every edge from one station to the other gets the new time. The result says whether there was such an edge, and nothing else changes |
| TransportNetworks.TransportNetwork.GetTravelTime | src/TransportNetwork.cpp:245-269 | the time of the first edge from a to b, else of the first edge from b to a, else 0 |
| TransportNetworks.TransportNetwork.FirstEdgeToIn | src/TransportNetwork.cpp:256-260 | the first edge leading to the station, if any |
| TransportNetworks.TransportNetwork.GetRouteTravelTime | src/TransportNetwork.cpp:271-323 | the travel time along a route is `RouteTravelTime`: 0 for an unknown station, line or route, else the route sum |
| TransportNetworks.SumAlongRoute | src/TransportNetwork.cpp:294-322 | the loop over the stops computes the route sum of `RouteSumAt` |
| TransportNetworks.WalkStop | src/TransportNetwork.cpp:296-321 | one turn of that loop either ends the walk with the route sum or keeps the loop's invariant one stop further |

## Where the code and its documentation differ

The model follows the code in each of these cases.

- A header line is checked for its colon, then for an empty value, and only then for a known key (src/StompFrame.cpp:258-270). A line with an unknown key and an empty value therefore fails with `ErrorHeaderEmptyValue`.
- During parsing, `content-length` is read with `std::stoi` (src/StompFrame.cpp:292).
  - A value with no digits after optional white space and one sign makes the parse throw `invalid_argument`, rather than return `ErrorHeaderContentLength`.
  - A value whose digits lie outside the range of `int` makes the parse throw `out_of_range`.
  - A leading space or `+` is skipped by `stoi`. Validation's `from_chars` then refuses the value with `ErrorHeaderContentLength` (src/StompFrame.cpp:389-396).
  - Validation then reads the same value a second time, with `std::from_chars`.
- The spelling `unknown header` is in the header table, so a frame may carry it as a header.
- `UNKNOWN COMMAND` is in the command table. It parses as a command and is refused only by validation, with `ErrorUnknown`.
- `ErrorBodyEmpty` is never produced.
- `ToString` writes the frame's fields without validating them again.
- The default constructor of `StompFrame` is declared but not defined. The model gives it the field initialisers of inc/network-monitor/StompFrame.h:167-169.

## Left out

- TransportNetworks.TransportNetwork.Copy and TransportNetworks.TransportNetwork.Assign copy the network deeply. The defaulted C++ copy and assignment (src/TransportNetwork.cpp:37-47) copy the maps of `shared_ptr`, so both networks share every `GraphNode` and `LineInternal` object.
  - A later passenger event, travel-time change or new edge through either network therefore shows in both in the C++, but not in the model.
  - The model has no aliasing between networks.
- The WebSocket client, the file downloader, the mocks, the tests and `main` are not part of this model. They perform I/O.
- `TransportNetwork::FromJson` (src/TransportNetwork.cpp:53-110) is left out: it parses JSON with an external library.
- inc/network-monitor/TransportNetwork.h is not part of this model.
  - `Station`, `Route`, `Line`, `PassengerEvent`, `GraphNode`, `GraphEdge`, `LineInternal` and `RouteInternal` are modelled from how src/TransportNetwork.cpp uses them.
  - Their `operator==` (src/TransportNetwork.cpp:10-31) is Dafny's structural equality on datatypes.
- `GetStation`, `GetLine` and `GetRouteFromLine` (src/TransportNetwork.cpp:327-362) are map lookups, written inline.
- Move constructors and move assignments behave as the copies; destructors are left out.
- `operator<<`, the error-name table and `ToString(StompError)` (src/StompFrame.cpp:92-94, 131-133 and 135-167) produce display text only.
- Iteration over the `unordered_map`s has no order the code relies on, and each model settles it differently:
  - `ConstructFrame` may emit the headers in any order, and the round-trip lemmas hold for every order.
  - The walk over lines and routes in `GetRoutesServingStation` follows their insertion order (`lineOrder`, `routeOrder`). The set of ids listed does not depend on this choice, as `RoutesServingMembers` states.
- TransportNetworks.TransportNetwork.GetPassengerCount: the `int64_t` counter is an unbounded integer; overflow after 2^63 events is not modelled.
- TransportNetworks.TransportNetwork.AddLine requires every route of a new line to have at least one stop.
  - For a route with no stops, `routeInternal->stops.size() - 1` wraps around and the edge loop reads out of bounds: the behaviour is undefined.
  - The requirement is slightly stronger than needed, because a route after a refused one is never reached.
- TransportNetworks.TransportNetwork.AddRouteToLine requires the same of its one route, for the same reason.
- The `default` branch of the event switch (src/TransportNetwork.cpp:164-165) cannot be reached: `PassengerEvent` has only `In` and `Out`.
- A frame whose parse throws keeps no state in the model. The C++ object under construction is never completed in that case.
- TransportNetworks.TransportNetwork.GetRouteTravelTime and GetRoutesServingStation require the network invariant (`Valid`). Every operation keeps it, and the C++ relies on it, for instance to index the last stop of a route.
