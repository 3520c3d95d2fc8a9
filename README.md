# Transport catalogue: a verified model

A Dafny model of the core of a bus-network catalogue written in C++. The
model covers:

- **Entity store:** stops with coordinates and buses with stop sequences. It keeps name indices, a stop-to-buses index and a directed table of road distances between stops.
- **Routing-graph builder:** it turns every bus into "board here, ride to there" edges that carry a span count and a weight in minutes.
- **JSON front end:** it loads queued base requests into the catalogue, builds the routing graph when a route is asked for, and answers the stat requests as one JSON array.
- **JSON parser and printer.**
- **JSON builder:** a state machine of open containers and a pending key.
- **Line-format readers:** the input reader and the stat reader.
- **SVG writer:** colours, stroke styles, path attributes, polylines and text escaping.
- **Map renderer:** it draws one coloured polyline per bus from a cyclic palette.

One Dafny module models each source file:

| file | module | models |
|---|---|---|
| wrappers.dfy | Wrappers | `Option`, `Result`, the exceptions the source throws (`Error`) and `Outcome` for void calls that may throw |
| strings.dfy | Strings | `std::string::find`, `std::stoi`, decimal text, `int` narrowing |
| ordered.dfy | Ordered | `std::less<std::string>`, `std::set<std::string>` as strictly sorted sequences |
| domain.dfy | Domain | stops, buses, requests and router settings |
| transport_catalogue.dfy | Catalogue | `TransportCatalogue` as a class over sequences and maps |
| transport_router.dfy | Router | `TransportRouter` and the edge list of `DirectedWeightedGraph` |
| json.dfy | Json | `Node`, `LoadNode` and its helpers, `PrintNode` |
| json_builder.dfy | JsonBuilder | `json::Builder` as a class, and its calls as functions on a state value |
| json_reader.dfy | Reader | `JsonReader` loading and answering |
| input_reader.dfy | InputReader | `input::Processing` and the `parsers` |
| stat_reader.dfy | StatReader | `compute::Data`/`Curv` and the line-format answers |
| svg.dfy | Svg | `svg.h`/`svg.cpp` |
| map_renderer.dfy | MapRenderer | `ColorPalettePicker`, `RenderMap`, `RenderRoute` |

Conventions:

- **Pointers to stops and buses:** these are indices into the `stops`/`buses` sequences, and pointer equality is index equality. Each stop's vertex id in the routing graph is its index.
- **Exceptions:** each one becomes `Failure(e)`, with the exception's kind and message.
- **Doubles:** they are `real`. The text `operator<<` gives a double is a function parameter.
- **`std::map`/`std::set` traversal:** it is key order (`Ordered.SortSet`).

The brace initialisation in `AddStop` (transport-catalogue/transport_catalogue.cpp:35) value-initialises the stop's `edge_id` to 0 and nothing sets it later, although `json_reader.cpp:458` and `transport_router.cpp:40` read it. As written, every stop is vertex 0 of the graph. The model numbers vertices by the stop's index in storage, which is how `json_reader.cpp:47-48` sizes the graph.

The header declares `AddBus(name, stops)` without a round-trip flag (transport_catalogue.h:65-66), but `json_reader.cpp:320` passes one. The model follows the call site: a bus record keeps `isRound`, which the graph builder reads.

## Model

| member | source | states |
|---|---|---|
| Catalogue.TransportCatalogue.constructor | transport-catalogue/transport_catalogue.h:88-93 | a new catalogue has no stops, buses, indices or distances |
| Catalogue.TransportCatalogue.AddStop | transport-catalogue/transport_catalogue.cpp:32-43 | exactly one record is appended; the name now points at it and its bus set is empty again; an earlier record of that name stays stored; buses and distances are unchanged |
| Catalogue.TransportCatalogue.GetStop | transport-catalogue/transport_catalogue.cpp:74-82 | succeeds exactly for an indexed name, returning a record with that name; otherwise invalid_argument "Stop from route not found in catalogue" |
| Catalogue.TransportCatalogue.GetBus | transport-catalogue/transport_catalogue.cpp:143-151 | succeeds exactly for an indexed bus name, returning a record with that name; otherwise invalid_argument "Route not found in catalogue" |
| Catalogue.TransportCatalogue.ResolveStops | transport-catalogue/transport_catalogue.cpp:48-53 | the name-to-record loop succeeds exactly when every name is known, and then yields each name's current record, in order |
| Catalogue.WithBus | transport-catalogue/transport_catalogue.cpp:62-65 | inserting the bus into the stops' sets keeps the same keys and every set strictly sorted |
| Catalogue.WithBusPointwise | transport-catalogue/transport_catalogue.cpp:62-65 | a named stop's set gains the bus once, however often the stop occurs; every other set is unchanged |
| Catalogue.TransportCatalogue.StopSetsWithBus | transport-catalogue/transport_catalogue.cpp:62-65 | the insertion loop over the resolved records computes WithBus over their names |
| Catalogue.TransportCatalogue.AddBus | transport-catalogue/transport_catalogue.cpp:45-66 | an unknown stop name fails with not-found before anything changes; otherwise the record with each name's current stop is appended and indexed, and the bus joins each of its stops' sets |
| Catalogue.TransportCatalogue.AppendBus | transport-catalogue/transport_catalogue.cpp:55-65 | appends the record, points the bus name at it and installs the new bus sets; stops, stop index and distances are unchanged |
| Catalogue.TransportCatalogue.AddDistance | transport-catalogue/transport_catalogue.cpp:68-72 | fails with not-found unless both stops are known; otherwise only the ordered pair (from, to) is set, and GetDistance(from, to) then returns it |
| Catalogue.TransportCatalogue.GetBusesToStop | transport-catalogue/transport_catalogue.cpp:84-93 | fails exactly for an unknown stop; otherwise the stop's bus names in strictly sorted order, empty for a stop no bus serves |
| Catalogue.TransportCatalogue.ComputeStopsCount | transport-catalogue/transport_catalogue.cpp:95-98 | the length of the stored stop sequence; not-found for an unknown bus |
| Catalogue.TransportCatalogue.ComputeUniqueStopsCount | transport-catalogue/transport_catalogue.cpp:100-107 | the number of distinct stop records; at most ComputeStopsCount and at least 1 for a bus with stops |
| Catalogue.DistinctBounds | transport-catalogue/transport_catalogue.cpp:100-107 | a sequence has no more distinct elements than elements, and at least one when it is non-empty |
| Catalogue.TransportCatalogue.GetDistance | transport-catalogue/transport_catalogue.cpp:153-176 | an unknown stop fails with not-found; otherwise the (from, to) entry if stored, else the (to, from) entry, else "No route between these stops in catalogue" |
| Catalogue.TransportCatalogue.GetDistanceOneWay | transport-catalogue/transport_catalogue.cpp:159-175 | a distance stored in one direction only serves both directions |
| Catalogue.TransportCatalogue.RouteLengthFails | transport-catalogue/transport_catalogue.cpp:109-123 | the sum fails exactly when some consecutive pair has no distance in either direction; a bus with at most one stop has length 0 |
| Catalogue.TransportCatalogue.RouteLengthPrefixFails | transport-catalogue/transport_catalogue.cpp:116-120 | once a prefix fails, the whole sum fails with the same error |
| Catalogue.TransportCatalogue.ComputeRouteLength | transport-catalogue/transport_catalogue.cpp:109-123 | the accumulating loop returns the sum of GetDistance over consecutive stops; not-found for an unknown bus |
| Catalogue.TransportCatalogue.GetRoutes | transport-catalogue/transport_catalogue.h:75 | one entry per indexed bus, names strictly increasing, each with that name's record |
| Router.EdgeWeightMeaning | transport-catalogue/transport_router.cpp:10-17 | the weight is the minutes a ride over the distance takes at `bus_velocity` km/h, and a non-negative distance takes non-negative time |
| Router.RideStep | transport-catalogue/transport_router.cpp:31-45 | one inner-loop step: from the weight and span so far, position j yields its edge (when its stop differs from the boarding stop) and the next weight and span |
| Router.RideEdgesClosedForm | transport-catalogue/transport_router.cpp:26-46 | the inner loop emits an edge to every later stop different from the boarding stop; a hop that ends at the boarding stop adds neither weight nor span |
| Router.SpanSucc | transport-catalogue/transport_router.cpp:29-43 | the `uint16_t` span wraps the same way whether the increment is reduced before or after |
| Router.RideSpans | transport-catalogue/transport_router.cpp:29-43 | the k-th edge from one boarding stop carries span k+1, modulo 2^16 |
| Router.RideEndpoints | transport-catalogue/transport_router.cpp:33-41 | every edge from boarding position i leaves from stops[i] and never arrives there |
| Router.RideWeights | transport-catalogue/transport_router.cpp:28-39 | with non-negative distances, every edge weighs at least `bus_wait_time`, and successive edges from one boarding stop never get lighter |
| Router.BackHopsAreReversedHops | transport-catalogue/transport_router.cpp:61-67 | a backward hop reads the same distance as the forward hop over the reversed stops |
| Router.BackRideIsReversedRide | transport-catalogue/transport_router.cpp:61-75 | the backward inner loop from i emits the forward inner loop's edges over the reversed stops |
| Router.BackwardFromIsReversedForward | transport-catalogue/transport_router.cpp:56-76 | the backward outer loop, from any start down to 1, equals the forward outer loop over the reversed stops |
| Router.BackwardIsReversedForward | transport-catalogue/transport_router.cpp:49-77 | the backward pass over `stops` emits exactly the edges of the forward pass over `reverse(stops)` |
| Router.BusEdgesShape | transport-catalogue/transport_router.cpp:84-94 | a bus with fewer than two stops gets no edge; a round trip gets the forward pass; any other bus gets the forward pass, then the forward pass over its reversed stops |
| Router.PalindromeEdgesTwice | transport-catalogue/transport_router.cpp:86-93 | a non-round bus whose stored stops read the same both ways gets every forward edge twice |
| Router.RoutesEdgesCons | transport-catalogue/transport_router.cpp:82-95 | the edges of a list of routes are the first route's edges followed by the rest's |
| Router.CatalogueRoutes | transport-catalogue/transport_router.cpp:82 | one route per indexed bus name, each paired with that name's bus record |
| Router.TransportRouter.constructor | transport-catalogue/transport_router.cpp:7-8 | the router keeps the settings it is given |
| Router.DirectedWeightedGraph.AddEdge | transport-catalogue/transport_router.cpp:40-41 | the edge is appended to the graph's edge list |
| Router.TransportRouter.AddRidesForwards | transport-catalogue/transport_router.cpp:28-45 | the inner forward loop appends exactly the closed-form ride edges from boarding position i |
| Router.TransportRouter.AddEdgesForwards | transport-catalogue/transport_router.cpp:19-47 | the forward pass appends the rides from every boarding position but the last |
| Router.TransportRouter.AddRidesBackwards | transport-catalogue/transport_router.cpp:58-75 | the inner backward loop appends one edge to every earlier position whose stop differs from the boarding stop |
| Router.TransportRouter.AddEdgesBackwards | transport-catalogue/transport_router.cpp:49-77 | the backward pass appends the rides from the last boarding position down to 1 |
| Router.TransportRouter.AddBusEdges | transport-catalogue/transport_router.cpp:84-94 | no edges for fewer than two stops; otherwise the forward pass, then the backward pass unless the bus is a round trip |
| Router.TransportRouter.AddRoutesEdges | transport-catalogue/transport_router.cpp:82-95 | appends the edges of each route in turn |
| Router.TransportRouter.FillGraph | transport-catalogue/transport_router.cpp:79-96 | the graph gains the edges of every bus, in bus-name order |
| Reader.ExpandStops | transport-catalogue/json_reader.cpp:308-321 | a round trip keeps its n stops; any other bus is stored with 2n-1 stops, its k-th stop mirroring stop 2n-2-k |
| Reader.ExpandStopsShape | transport-catalogue/json_reader.cpp:308-321 | a non-round list becomes the list followed by its reverse without the last stop: a palindrome of length 2n-1 that starts and ends at the first stop; a round trip is unchanged |
| Reader.ExpandedByLoop | transport-catalogue/json_reader.cpp:310-318 | what the reverse-iterator loop leaves is ExpandStops |
| Reader.ExpandedKnown | transport-catalogue/json_reader.cpp:308-321 | the expanded list names only known stops exactly when the request does |
| Reader.StopIds | transport-catalogue/transport_catalogue.cpp:48-53 | each name is resolved to its indexed record |
| Reader.BusRecordPalindrome | transport-catalogue/json_reader.cpp:308-321 | the stored record of a non-round bus reads the same both ways |
| Reader.NonRoundEdgesTwice | transport-catalogue/json_reader.cpp:311-320 | a non-round bus with two or more stops gets every edge of its forward pass twice in the graph |
| Reader.StopRecords | transport-catalogue/json_reader.cpp:17-20 | one stop record per request, in request order |
| Reader.IndexStops | transport-catalogue/json_reader.cpp:17-20 | the stop index after the stop loop keeps every old name and holds every requested name |
| Reader.StoredKeys | transport-catalogue/json_reader.cpp:17-20 | the stop loop adds exactly the requested names to the index and to the bus sets; each set is either empty or unchanged |
| Reader.IndexStopsKeeps | transport-catalogue/json_reader.cpp:17-20 | a known name that no request repeats keeps its record |
| Reader.IndexStopsLatest | transport-catalogue/json_reader.cpp:17-20 | a requested name points at the record of the last request with that name |
| Reader.DistancesFromSnoc | transport-catalogue/json_reader.cpp:297-306 | each step of the distance loop stores one more (stop, target) entry over the table so far |
| Reader.NotKnownAt | transport-catalogue/json_reader.cpp:301-304 | a distance whose stop or target is unknown makes the request's distances unloadable |
| Reader.DistancesFromGrows | transport-catalogue/json_reader.cpp:297-306 | storing a request's distances keeps every earlier entry and sets an entry for each declared target |
| Reader.DeclaredStored | transport-catalogue/json_reader.cpp:22-25 | after the distance loop every declared distance is in the table under its stops' records, and no earlier entry is dropped |
| Reader.TargetsOfLaterRequestsKnown | transport-catalogue/json_reader.cpp:15-25 | since every stop is stored before any distance, a distance to a stop requested later in the list is known |
| Reader.BusRecords | transport-catalogue/json_reader.cpp:30-33 | one bus record per request, in request order |
| Reader.StopsLoaded | transport-catalogue/json_reader.cpp:17-20 | the stop phase keeps one bus set per stop name |
| Reader.BusAdded | transport-catalogue/json_reader.cpp:308-321 | storing one bus keeps one sorted set per stop name and leaves stops, stop index and distances unchanged |
| Reader.BusesLoaded | transport-catalogue/json_reader.cpp:30-33 | the bus phase keeps one sorted set per stop name and leaves stops, stop index and distances unchanged |
| Reader.BusesLoadedRecords | transport-catalogue/json_reader.cpp:30-33 | the stored buses are the earlier ones followed by the requests' records, in request order |
| Reader.BusRecordsSnoc | transport-catalogue/json_reader.cpp:30-33 | one more bus request adds one more record at the end |
| Reader.StopsLoadedSnoc | transport-catalogue/json_reader.cpp:17-20 | one more stop request appends its record, repoints its name and empties its bus set |
| Reader.DistancesLoadedSnoc | transport-catalogue/json_reader.cpp:22-25 | one more request's distances are stored over the table so far |
| Reader.BusesLoadedSnoc | transport-catalogue/json_reader.cpp:30-33 | one more bus request is stored over the catalogue so far |
| Reader.RouteRequested | transport-catalogue/json_reader.cpp:36-43 | the flag loop is true exactly when some queued request is a Route request |
| Reader.ReadRoutingSettings | transport-catalogue/json_reader.cpp:249-264 | success only for a Dict whose Int `bus_wait_time` and numeric `bus_velocity` it returns, both in [1, 1000]; with both present and well typed, it succeeds exactly when they are in range and otherwise fails with "Invalid value in router_settings"; a non-Dict fails with the accessor's bad-variant logic_error |
| Reader.JsonReader.constructor | transport-catalogue/json_reader.cpp:7-11 | the reader holds the catalogue and the queue, with no settings and no graph |
| Reader.JsonReader.ParseRoutingSettings | transport-catalogue/json_reader.cpp:249-264 | stores exactly the settings ReadRoutingSettings accepts; on failure the stored settings are unchanged |
| Reader.JsonReader.ProcessingStopRequest | transport-catalogue/json_reader.cpp:292-295 | appends the request's stop record, repoints its name and empties its bus set; buses and distances are unchanged |
| Reader.JsonReader.ProcessingDistances | transport-catalogue/json_reader.cpp:297-306 | succeeds exactly when the stop and every target are known, then stores every declared distance in order; only distances change |
| Reader.JsonReader.LoadStops | transport-catalogue/json_reader.cpp:17-20 | the catalogue afterwards is StopsLoaded of the catalogue before |
| Reader.JsonReader.LoadDistances | transport-catalogue/json_reader.cpp:22-25 | succeeds exactly when every distance names known stops; the catalogue is then DistancesLoaded; no stop or bus changes |
| Reader.JsonReader.LoadBuses | transport-catalogue/json_reader.cpp:30-33 | succeeds exactly when every bus names known stops; the catalogue is then BusesLoaded |
| Reader.JsonReader.LoadQueue | transport-catalogue/json_reader.cpp:15-34 | all stops, then all distances, then all buses: succeeds exactly when the queue is Loadable, giving Loaded |
| Reader.JsonReader.UpdateCatalogue | transport-catalogue/json_reader.cpp:13-54 | loads stops, distances and buses in that order; builds a fresh graph only when a Route request is queued, with one vertex per stored stop and every bus's edges; a failed load builds no graph |
| Reader.JsonReader.NewGraph | transport-catalogue/json_reader.cpp:47-50 | a fresh graph with one vertex per stored stop and the edges FillGraph adds |
| Reader.JsonReader.BuildGraph | transport-catalogue/json_reader.cpp:47-52 | the reader's graph becomes that fresh graph |
| Reader.NotFoundAnswer | transport-catalogue/json_reader.cpp:435-441 | the "not found" answer has distinct keys |
| Reader.StopAnswer | transport-catalogue/json_reader.cpp:333-340 | the stop answer has distinct keys |
| Reader.BusAnswer | transport-catalogue/json_reader.cpp:360-364 | the bus answer has distinct keys |
| Reader.MapAnswer | transport-catalogue/json_reader.cpp:384-385 | the map answer has distinct keys |
| Reader.StatAnswer | transport-catalogue/json_reader.cpp:323-393 | an unknown stop or bus, or a bus with a hop that has no distance, is answered "not found"; a known stop gets its sorted buses; a bus gets its length and counts; a Map request gets the rendered map, "not found" for a rendering `invalid_argument`, and fails with any other exception rendering throws; only a Map request can fail; an unknown type gets no answer |
| Reader.RenderedMap | transport-catalogue/json_reader.cpp:376-381 | rendering the catalogue's map fails, with out_of_range, exactly when the palette is empty and some bus has a stop |
| Reader.JsonReader.ComputeStatRequest | transport-catalogue/json_reader.cpp:323-393 | the method's answer is StatAnswer, with the Map branch running RenderMap over the catalogue's routes |
| Reader.KeysDistinct | transport-catalogue/json_reader.cpp:333-345 | fields with pairwise distinct keys are all accepted by the builder |
| Reader.WaitBuilt | transport-catalogue/json_reader.cpp:414-417 | the Wait item's builder chain succeeds and builds the Dict {time: wait, type: "Wait", stop_name} |
| Reader.WaitDict | transport-catalogue/json_reader.cpp:414-417 | the Wait fields make exactly that Dict |
| Reader.RideBuilt | transport-catalogue/json_reader.cpp:419-424 | the Bus item's builder chain succeeds and builds {time: weight - wait, span_count, bus, type: "Bus"} |
| Reader.RideDict | transport-catalogue/json_reader.cpp:419-424 | the Bus fields make exactly that Dict |
| Reader.RouteItemsKnown | transport-catalogue/json_reader.cpp:409-412 | the route items exist exactly when every edge id resolves to an edge from a stored stop, else out_of_range |
| Reader.RouteItemsPairs | transport-catalogue/json_reader.cpp:409-428 | two items per edge, in route order: Wait at the edge's from-stop, then the ride |
| Reader.RouteItemsTime | transport-catalogue/json_reader.cpp:409-432 | the items' times add up to the summed weight of the edges taken |
| Reader.TotalTimePair | transport-catalogue/json_reader.cpp:426-427 | two more items add their two times |
| Reader.PairTime | transport-catalogue/json_reader.cpp:414-424 | an edge's Wait and Bus items share its weight between them |
| Reader.FoundRouteAnswer | transport-catalogue/json_reader.cpp:430-432 | the found-route answer has distinct keys |
| Reader.SameStopsAnswer | transport-catalogue/json_reader.cpp:395-401 | the same-stop answer has distinct keys |
| Reader.RouteAnswer | transport-catalogue/json_reader.cpp:443-474 | an unknown stop throws; the same stop gives total_time 0 and no items; no route gives "not found"; a found route gives its weight and its items |
| Reader.JsonReader.BuildValidRouteResponse | transport-catalogue/json_reader.cpp:403-433 | the item loop succeeds exactly when every edge id resolves, else out_of_range, and answers the route's weight and items |
| Reader.JsonReader.ComputeRouteRequest | transport-catalogue/json_reader.cpp:443-474 | the method's answer is RouteAnswer, and a request from a known stop to itself gets the same-stop answer |
| Reader.Answer | transport-catalogue/json_reader.cpp:483-494 | a stat request is answered by StatAnswer, and a Stop or Bus request never fails; a route request fails exactly when RouteAnswer does |
| Reader.JsonReader.ComputeAnswer | transport-catalogue/json_reader.cpp:485-494 | the method's answer is Answer |
| Reader.Answers | transport-catalogue/json_reader.cpp:481-496 | the answers have distinct keys, at most one per request |
| Reader.AnswersSnoc | transport-catalogue/json_reader.cpp:483-495 | one more request appends its answer, unless it has none or something fails |
| Reader.AnswersFailureFinal | transport-catalogue/json_reader.cpp:483-495 | the first failure is final: the answers to the whole queue fail with the prefix's error |
| Reader.AnswersStep | transport-catalogue/json_reader.cpp:481-496 | one turn of the answering loop: a failing answer is the whole queue's failure, otherwise it is appended to the answers so far |
| Reader.StatsAnswered | transport-catalogue/json_reader.cpp:483-495 | without route requests, and with a map that renders or no Map request, nothing fails, and each request of a known type is answered once |
| Reader.StatsMapFails | transport-catalogue/json_reader.cpp:372-391 | without route requests, a Map request whose rendering throws other than `invalid_argument` makes the whole answer fail with that exception |
| MapRenderer.CatalogueDrawn | transport-catalogue/map_renderer.cpp:60-67 | the catalogue's map draws a route exactly when some bus has a stop |
| Reader.JsonReader.CollectAnswers | transport-catalogue/json_reader.cpp:481-496 | the loop's result is Answers |
| Reader.JsonReader.ComputeJSON | transport-catalogue/json_reader.cpp:476-499 | the builder accepts StartArray, each answer's Dict and EndArray, and Build returns the Array of the answers' Dicts; a failed answer is passed on |
| Reader.JsonReader.ProcessingBusRequest | transport-catalogue/json_reader.cpp:308-321 | the loop expands a non-round list, and AddBus stores the record of the expanded list; an unknown stop fails with nothing stored |
| Reader.JsonReader.AddExpandedBus | transport-catalogue/json_reader.cpp:320 | AddBus on the expanded list stores the request's BusRecord and its sets |
| Json.AsInt | transport-catalogue/json.cpp:347-357 | an Int node gives its value; any other kind is a logic_error |
| Json.AsBool | transport-catalogue/json.cpp:359-369 | a Bool node gives its value; any other kind is a logic_error |
| Json.AsDouble | transport-catalogue/json.cpp:371-382 | a Double gives its value, an Int its value as a double; any other kind is a logic_error |
| Json.AsString | transport-catalogue/json.cpp:384-394 | a Str node gives its text; any other kind is a logic_error |
| Json.AsArray | transport-catalogue/json.cpp:396-406 | an Array node gives its items; any other kind is a logic_error |
| Json.AsMap | transport-catalogue/json.cpp:408-418 | a Dict node gives its entries; any other kind is a logic_error |
| Json.At | transport-catalogue/json_reader.cpp:253-254 | `at(key)` gives the key's value, or out_of_range for a missing key |
| Json.SkipSpaces | transport-catalogue/json.cpp:289 | the position of the next non-space character, never before the start |
| Json.ReadChar | transport-catalogue/json.cpp:289 | `>>` yields the next non-space character and the position after it, or nothing at the end |
| Json.Unescape | transport-catalogue/json.cpp:161-181 | exactly `n`, `t`, `r`, `"` and `\` may follow a backslash; any other character fails with "Unrecognized escape sequence" naming it |
| Json.ParseString | transport-catalogue/json.cpp:133-196 | the decoded body ends after its closing quote |
| Json.ParseStringCases | transport-catalogue/json.cpp:140-193 | a quote ends the string; an unknown escape fails; a raw LF or CR fails with "Unexpected end of line"; input that ends before the closing quote fails |
| Json.ProcessString | transport-catalogue/json.cpp:133-196 | the character loop computes ParseString |
| Json.PrintString | transport-catalogue/json.cpp:548-585 | the loop writes the quoted text, each character as EscapeChar writes it |
| Json.ParseEscapedChar | transport-catalogue/json.cpp:152-181 | each printed character other than `'` is read back as itself |
| Json.ParseEscaped | transport-catalogue/json.cpp:140-193 | the escaped characters of a text without `'`, from the k-th on, then the closing quote, read back as those characters and stop after the quote |
| Json.StringRoundTrip | transport-catalogue/json.cpp:548-585 | parsing a printed string gives the string back whenever it holds no `'` |
| Json.QuoteBreaksRoundTrip | transport-catalogue/json.cpp:555-558 | a `'` is printed as `\'`, an escape the parser rejects, so the round trip fails |
| Json.ReadDigits | transport-catalogue/json.cpp:53-64 | at least one digit is required ("A digit is expected"); the whole run of digits is read |
| Json.WholeEnd | transport-catalogue/json.cpp:71-78 | a successful integer part is non-empty and within the text; otherwise "A digit is expected" |
| Json.FractionEnd | transport-catalogue/json.cpp:81-86 | an optional `.` followed by at least one digit |
| Json.ExponentEnd | transport-catalogue/json.cpp:88-98 | an optional exponent with at least one digit |
| Json.ScanNumber | transport-catalogue/json.cpp:38-98 | a number token is non-empty and within the text; a malformed one fails with "A digit is expected" |
| Json.LoadNumber | transport-catalogue/json.cpp:100-131 | a number is read as an Int or a Double node, and reading moves forward |
| Json.LoadNull | transport-catalogue/json.cpp:230-254 | success gives Null and moves forward; failure is "Wrong null value" |
| Json.LoadBool | transport-catalogue/json.cpp:256-284 | success gives a Bool and moves forward; failure is "Wrong bool value" |
| Json.SkipEscapes | transport-catalogue/json.cpp:288-296 | the backslash-skipping loop ends on a non-backslash character, or fails with "Not valid json" when the input runs out |
| Json.LoadScalar | transport-catalogue/json.cpp:306-326 | a scalar is never an Array or a Dict, and reading moves forward |
| Json.LoadNode | transport-catalogue/json.cpp:286-327 | reading a value, after any white space, moves forward within the text |
| Json.LoadValue | transport-catalogue/json.cpp:288-326 | reading a value moves past its first character |
| Json.LoadArray | transport-catalogue/json.cpp:11-34 | a loaded array ends at its `]` and keeps the items already read, in order, before the new ones |
| Json.KeyStart | transport-catalogue/json.cpp:208-213 | an entry's key starts after its first character, or after one more read when that character is `,` |
| Json.LoadEntry | transport-catalogue/json.cpp:208-218 | reading one entry moves forward |
| Json.LoadDict | transport-catalogue/json.cpp:203-228 | a loaded dict keeps every entry already read with its value, so a repeated key keeps its first value (`insert` does not overwrite) |
| Json.EscapeLoopStep | transport-catalogue/json.cpp:292-296 | one pass of the loop as written; a failed read leaves `c` as it was |
| Json.EscapeLoop | transport-catalogue/json.cpp:292-296 | the loop as written after n passes stays within the input |
| Json.EscapeLoopAsWritten | transport-catalogue/json.cpp:292-296 | the loop as written agrees with SkipEscapes where that succeeds, and never stops where SkipEscapes reports that the input ran out |
| Json.LoneBackslash | transport-catalogue/json.cpp:292-296 | on the input `\` the loop as written never stops, and the corrected LoadNode fails with "Not valid json" |
| Json.Join | transport-catalogue/json.cpp:596-606 | no elements give the empty text and one element gives itself; more are separated by `", "` |
| Json.PrintNode | transport-catalogue/json.cpp:632-636 | writes null as `null`, a bool as `true` or `false`, an int as its decimal digits, a double as the stream writes it, a string quoted with its escapes, an array as its elements separated by `, ` between brackets, and a dict as its `"key": value` entries in key order between braces; every printed value other than a double starts with a character that opens a value |
| Json.PrintDict | transport-catalogue/json.cpp:611-630 | a dict is written starting with `{` |
| Json.ItemTexts | transport-catalogue/json.cpp:592-609 | one printed text per array element, in order |
| Json.EntryTexts | transport-catalogue/json.cpp:615-627 | one `"key": value` text per key, in the given order |
| Json.ScanPrintedInt | transport-catalogue/json.cpp:66-98 | the printed digits of an `int` are scanned as one int token with that value |
| Json.LoadPrintedInt | transport-catalogue/json.cpp:100-131 | printed int digits, followed by what may follow a value, are read back as that Int node |
| Json.LoadPrintedNull | transport-catalogue/json.cpp:230-254 | `null` reads back as Null |
| Json.LoadPrintedTrue | transport-catalogue/json.cpp:256-284 | `true` reads back as true |
| Json.LoadPrintedFalse | transport-catalogue/json.cpp:256-284 | `false` reads back as false |
| Json.LoadPrintedStr | transport-catalogue/json.cpp:198-201 | a printed string without `'` reads back as itself |
| Json.LoadPrintedNumber | transport-catalogue/json.cpp:121-131 | a printed Int reads back as that Int |
| Json.LoadPrintedItems | transport-catalogue/json.cpp:11-34 | the elements of a printed array from the k-th on, then `]`, are read back after the first k elements |
| Json.LoadPrintedArray | transport-catalogue/json.cpp:11-34 | a printed array reads back as the same array |
| Json.LoadPrintedEntries | transport-catalogue/json.cpp:208-218 | the entries of a printed dict from the k-th on, then `}`, are read back after the first k |
| Json.LoadPrintedDict | transport-catalogue/json.cpp:203-228 | a printed dict reads back as the same dict |
| Json.LoadPrinted | transport-catalogue/json.cpp:286-327 | a printed value followed by the end of the text, `,`, `]` or `}` reads back as the same value, and reading stops right after it |
| Json.PrintThenLoad | transport-catalogue/json.cpp:532-535 | loading a printed document gives the document back, for every value without doubles, without `'` in its strings and with keys that need no escaping |
| Json.NumbersAsBools | transport-catalogue/json.cpp:537-546 | the value the printer as written writes: every int or double becomes the bool saying it is non-zero, inside arrays and dicts too, with the same keys and element count |
| Json.PrintNodeAsWritten | transport-catalogue/json.cpp:632-636 | as written, an int prints as `true` when non-zero and `false` when zero, and every printed value starts with a character that opens a value |
| Json.PrintedAsWrittenLoads | transport-catalogue/json.cpp:632-636 | loading what the printer as written writes gives the document with every number replaced by whether it is non-zero |
| Json.IntPrintsAsBool | transport-catalogue/json.cpp:632-636 | as written, the int 7 loads back as `true` and 0 as `false`, while the corrected printer gives back the int 7 |
| JsonBuilder.Emplace | transport-catalogue/json_builder.cpp:37 | `emplace` adds the key with the value when the key is new; a present key keeps its value |
| JsonBuilder.AfterKey | transport-catalogue/json_builder.cpp:6-19 | fails unless the innermost open container is a Dict, and while a key is pending; otherwise the key is pending and nothing else changes |
| JsonBuilder.Built | transport-catalogue/json_builder.cpp:145-151 | succeeds exactly when the root is set and nothing is open, returning the root; otherwise "Build error: Document not completed" |
| JsonBuilder.Pop | transport-catalogue/json_builder.cpp:127-128 | one container fewer is open |
| JsonBuilder.TopIsCurrent | transport-catalogue/json_builder.h:22-27 | the innermost open container is the current node |
| JsonBuilder.ValueEffect | transport-catalogue/json_builder.cpp:21-48 | Value fails on a complete document and inside a Dict without a pending key; otherwise the value becomes the root, goes under the pending key (a present key keeps its value), or is appended to an Array, and nothing opens or closes |
| JsonBuilder.StartEffect | transport-catalogue/json_builder.cpp:50-116 | StartDict/StartArray fail on a complete document and inside a Dict without a pending key; otherwise they push exactly one open container and clear the pending key |
| JsonBuilder.PushChild | transport-catalogue/json_builder.cpp:66-79 | inserting a child into the current container and making it current keeps the builder's invariant |
| JsonBuilder.PopEffect | transport-catalogue/json_builder.cpp:127-128 | closing the innermost container pops exactly it and keeps the invariant |
| JsonBuilder.EndDictEffect | transport-catalogue/json_builder.cpp:118-131 | EndDict fails while a key is pending and when the top is missing or an Array; otherwise it pops that Dict |
| JsonBuilder.EndArrayEffect | transport-catalogue/json_builder.cpp:133-143 | EndArray fails when the top is missing or a Dict; otherwise it pops that Array |
| JsonBuilder.CompletedTakesNothing | transport-catalogue/json_builder.cpp:23-24 | once Build would succeed, Value, StartDict and StartArray fail |
| JsonBuilder.ReplaceAt | transport-catalogue/json_builder.cpp:36-37 | after an assignment through a pointer, the pointer leads to the assigned node |
| JsonBuilder.ReplaceTwice | transport-catalogue/json_builder.cpp:36-44 | the second of two assignments through one pointer wins |
| JsonBuilder.ReplaceSame | transport-catalogue/json_builder.cpp:36-44 | assigning a node its own value changes nothing |
| JsonBuilder.ReplaceKeepsRootKind | transport-catalogue/json_builder.cpp:36-44 | an assignment below the root leaves the root's kind unchanged |
| JsonBuilder.Prefixes | transport-catalogue/json_builder.h:25 | one open container per depth from the root, ending at the current node itself |
| JsonBuilder.CloseActsAsValue | transport-catalogue/json_builder.cpp:50-143 | opening a container, filling it with x's contents and closing it acts as Value(x) |
| JsonBuilder.Opens | transport-catalogue/json_builder.cpp:50-116 | a builder that takes a value opens a container as its new current node, with no key pending |
| JsonBuilder.Bracket | transport-catalogue/json_builder.cpp:50-143 | open, fill and close together act as Value(x) |
| JsonBuilder.DescribeActsAsValue | transport-catalogue/json_builder.cpp:21-143 | describing a node call by call has the effect of passing it to Value at once |
| JsonBuilder.DescribeItemsAppend | transport-catalogue/json_builder.cpp:41-44 | describing elements into an open Array appends them in order |
| JsonBuilder.DescribeItem | transport-catalogue/json_builder.cpp:41-44 | describing one element into an open Array appends it |
| JsonBuilder.DescribeEntriesFill | transport-catalogue/json_builder.cpp:30-39 | describing entries with new distinct keys into an open Dict adds them |
| JsonBuilder.DescribeEntry | transport-catalogue/json_builder.cpp:30-39 | Key with a new key, then a described value, adds the entry |
| JsonBuilder.ExtendSorted | transport-catalogue/json_builder.cpp:30-39 | adding a Dict's entries in key order to an empty map gives the Dict back |
| JsonBuilder.BuildDescribed | transport-catalogue/json_builder.cpp:6-151 | the chain of calls that describes any non-null node builds exactly that node |
| JsonBuilder.FieldMapEntries | transport-catalogue/json_builder.cpp:30-39 | with distinct keys each field's value is under its key, and there are no other keys |
| JsonBuilder.FieldStep | transport-catalogue/json_builder.cpp:6-39 | Key with a new key and the field's value add the entry to the open Dict |
| JsonBuilder.FieldsFill | transport-catalogue/json_builder.cpp:6-39 | fields with new distinct keys written into an open Dict add their entries |
| JsonBuilder.DictCallsActAsValue | transport-catalogue/json_builder.cpp:50-131 | a field chain with distinct keys acts as passing its Dict to Value |
| JsonBuilder.BuildFields | transport-catalogue/json_builder.cpp:50-151 | a fresh builder given a field chain with distinct keys builds exactly that Dict |
| JsonBuilder.DictsAppend | transport-catalogue/json_builder.cpp:73-79 | field chains written into an open Array append their Dicts in order |
| JsonBuilder.DictItem | transport-catalogue/json_builder.cpp:73-79 | one field chain written into an open Array appends its Dict |
| JsonBuilder.BuildDicts | transport-catalogue/json_builder.cpp:84-151 | StartArray, the field chains, EndArray and Build on a fresh builder give the Array of their Dicts |
| JsonBuilder.Builder.constructor | transport-catalogue/json_builder.h:22-27 | a null root, nothing open, no key pending |
| JsonBuilder.Builder.Key | transport-catalogue/json_builder.cpp:6-19 | the new state is AfterKey's; on failure nothing changes |
| JsonBuilder.Builder.Value | transport-catalogue/json_builder.cpp:21-48 | the new state is AfterValue's; on failure nothing changes |
| JsonBuilder.Builder.Start | transport-catalogue/json_builder.cpp:50-116 | the new state is AfterStart's; on failure nothing changes |
| JsonBuilder.Builder.StartDict | transport-catalogue/json_builder.cpp:50-82 | AfterStart with an empty Dict and the StartDict messages |
| JsonBuilder.Builder.StartArray | transport-catalogue/json_builder.cpp:84-116 | AfterStart with an empty Array and the StartArray messages |
| JsonBuilder.Builder.EndDict | transport-catalogue/json_builder.cpp:118-131 | the new state is AfterEndDict's; on failure nothing changes |
| JsonBuilder.Builder.EndArray | transport-catalogue/json_builder.cpp:133-143 | the new state is AfterEndArray's; on failure nothing changes |
| JsonBuilder.Builder.Build | transport-catalogue/json_builder.cpp:145-151 | the result is Built of the current state |
| InputReader.Offset | transport-catalogue/input_reader.cpp:62 | `find(...) + k` as `size_t`: a found match plus k is their sum while it fits, and a missing match (npos) plus k wraps around to k - 1 |
| InputReader.SubstrFrom | transport-catalogue/input_reader.cpp:62 | `substr(pos)` is the rest of the text, or out_of_range past the end |
| InputReader.Prefix | transport-catalogue/input_reader.cpp:63 | `substr(0, n)` is at most n characters from the front |
| InputReader.TrimmedStartShape | transport-catalogue/input_reader.cpp:49-52 | the front loop removes exactly the leading spaces |
| InputReader.TrimmedEndShape | transport-catalogue/input_reader.cpp:54-57 | the back loop removes exactly the trailing spaces |
| InputReader.TrimmedShape | transport-catalogue/input_reader.cpp:47-58 | the trimmed text is a slice with only spaces around it, and it starts and ends with a non-space character when the text has one |
| InputReader.TrimmedPadded | transport-catalogue/input_reader.cpp:47-58 | a trimmed text padded with spaces trims back to itself |
| InputReader.CutSpaces | transport-catalogue/input_reader.cpp:47-58 | the two erasing loops leave the text trimmed |
| InputReader.AfterColon | transport-catalogue/input_reader.cpp:85 | the text after the first `:`, or the whole text when there is none |
| InputReader.NameField | transport-catalogue/input_reader.cpp:62-63 | a name field holds no `:`; any failure is out_of_range, from `substr` past the end (a missing label wraps the start to the label's length minus one, as CutNameNoLabel states) |
| InputReader.PrefixFree | transport-catalogue/input_reader.cpp:63 | the text before the first occurrence of a character does not hold it |
| InputReader.CutName | transport-catalogue/input_reader.cpp:60-67 | the name field trimmed, holding no `:` |
| InputReader.CutNameBetween | transport-catalogue/input_reader.cpp:60-67 | for text, the label, a colon-free name and `:`, the result is the trimmed name |
| InputReader.CutNameNoLabel | transport-catalogue/input_reader.cpp:62 | without the label, reading starts at index `|label| - 1`, and past the end of a shorter request `substr` throws |
| InputReader.Split | transport-catalogue/input_reader.cpp:87-94 | splitting always gives at least one piece (SplitJoin joins them back) |
| InputReader.SplitJoin | transport-catalogue/input_reader.cpp:87-97 | joining the pieces with the delimiter gives the text back |
| InputReader.SplitPiecesFree | transport-catalogue/input_reader.cpp:87-93 | no piece holds the delimiter |
| InputReader.Pieces | transport-catalogue/input_reader.cpp:87-98 | one trimmed piece for each piece of the split (PiecesShape states the rest) |
| InputReader.PiecesShape | transport-catalogue/input_reader.cpp:87-98 | every piece is trimmed and holds no delimiter, and the untrimmed pieces joined give the text |
| InputReader.SplitJoined | transport-catalogue/input_reader.cpp:87-97 | pieces without the delimiter, joined by it, split back into the same pieces |
| InputReader.CutRoute | transport-catalogue/input_reader.cpp:80-100 | the cutting loop returns the trimmed pieces of the text after the first `:` |
| InputReader.LatField | transport-catalogue/input_reader.cpp:71-72 | the latitude text holds no `,` |
| InputReader.Stop | transport-catalogue/input_reader.cpp:104-110 | succeeds exactly when the label is found; the name and both coordinate texts are trimmed, the name holds no `:` and the latitude no `,` |
| InputReader.BusDelimiter | transport-catalogue/input_reader.cpp:118-127 | the delimiter is three characters, and it is `" - "` exactly when the line holds `" - "` |
| InputReader.Bus | transport-catalogue/input_reader.cpp:112-133 | the name after "Bus", the route's trimmed pieces split at the delimiter, and whether it is circular |
| InputReader.DistancesFieldSplit | transport-catalogue/input_reader.cpp:141-146 | the distances text exists exactly when the line has more than two comma-separated fields, and then it is the fields from the third on |
| InputReader.StopsDistance | transport-catalogue/input_reader.cpp:135-161 | the stop name, and no items without a third field, else the trimmed items after the coordinates |
| InputReader.CutDistances | transport-catalogue/input_reader.cpp:148-158 | the loop returns the trimmed comma-separated items |
| InputReader.Distance | transport-catalogue/input_reader.cpp:163-170 | a parsed distance has a trimmed stop name and metres within `int` range |
| InputReader.DistanceOfText | transport-catalogue/input_reader.cpp:163-170 | "<N>m to <name>" reads back as (name, N) |
| InputReader.DistanceTo | transport-catalogue/input_reader.cpp:165 | the first "to" of a distance item is the one after the number |
| InputReader.DistanceMetres | transport-catalogue/input_reader.cpp:167 | the first `m` of a distance item is the unit after the number |
| InputReader.StopLines | transport-catalogue/input_reader.cpp:31-34 | every line in the stop queue has a label containing "Stop" |
| InputReader.BusLines | transport-catalogue/input_reader.cpp:37 | no line in the bus queue has a label containing "Stop" |
| InputReader.LinesPartitioned | transport-catalogue/input_reader.cpp:30-37 | every line goes to exactly one queue |
| InputReader.LinesSnoc | transport-catalogue/input_reader.cpp:27-38 | one more line joins exactly one queue, at its end |
| InputReader.RequestLines | transport-catalogue/input_reader.cpp:25-29 | as many lines as the count announces (none for a count below one), taken in order after the count's own line |
| InputReader.Processing | transport-catalogue/input_reader.cpp:20-41 | reads the count with `stoi`, then sends each line to StopLines or BusLines, keeping order |
| InputReader.BusTextName | transport-catalogue/input_reader.cpp:129 | a bus line's name field is the text between "Bus" and `:` |
| InputReader.BusTextDelimiter | transport-catalogue/input_reader.cpp:118-127 | a bus line written with a route's delimiter is read back with that delimiter |
| InputReader.BusTextStops | transport-catalogue/input_reader.cpp:130 | a bus line's route cuts back into its stops |
| InputReader.BusTextParsed | transport-catalogue/input_reader.cpp:112-133 | a written bus line parses back into its name, its stops and its kind |
| InputReader.StopTextName | transport-catalogue/input_reader.cpp:138 | a stop line's name reads back |
| InputReader.StopTextItems | transport-catalogue/input_reader.cpp:141-158 | a stop line's distance items read back |
| InputReader.StopTextParsed | transport-catalogue/input_reader.cpp:135-161 | a written stop line parses back into its name and its distance items |
| InputReader.StopTextCoords | transport-catalogue/input_reader.cpp:104-110 | a stop line without distances parses back into its name and its two coordinate texts |
| InputReader.StopLineKind | transport-catalogue/input_reader.cpp:30-33 | a stop line goes to the stop queue |
| InputReader.BusLineKind | transport-catalogue/input_reader.cpp:30-37 | a bus line goes to the bus queue unless its name contains "Stop" |
| StatReader.Hop | transport-catalogue/stat_reader.cpp:61-68 | the (a, b) entry when stored, else `.at` of (b, a), which is out_of_range when that is missing too |
| StatReader.RoadLengthFails | transport-catalogue/stat_reader.cpp:55-71 | the sum fails with out_of_range exactly when some consecutive pair has no distance either way; fewer than two stops sum to 0 |
| StatReader.RoadLengthPrefixFails | transport-catalogue/stat_reader.cpp:59-69 | once a prefix fails, the whole sum fails the same way |
| StatReader.RoadLengthIsRouteLength | transport-catalogue/stat_reader.cpp:55-71 | for stops that are their names' current records, Curv's sum and the catalogue's route length agree |
| StatReader.Curv | transport-catalogue/stat_reader.cpp:41-72 | an unknown bus is out_of_range; otherwise the two-iterator loop returns the road length |
| StatReader.Data | transport-catalogue/stat_reader.cpp:21-39 | the stop count is the number of stops visited, and the unique count is the number of distinct records |
| StatReader.BusReply | transport-catalogue/stat_reader.cpp:76-108 | an unknown bus is "not found" before anything is computed; otherwise Data's counts and Curv's length |
| StatReader.ProcessOutputBus | transport-catalogue/stat_reader.cpp:76-108 | writes BusReply |
| StatReader.WordsJoin | transport-catalogue/stat_reader.cpp:135-141 | the names after "buses" are joined by single spaces, after one more space |
| StatReader.StopReplyCases | transport-catalogue/stat_reader.cpp:110-144 | "not found" for an unknown stop, "no buses" for an empty set, else "buses" and the names in sorted order, which cut back into the set |
| StatReader.ProcessOutputStop | transport-catalogue/stat_reader.cpp:110-144 | writes the stop answer: the head, then one of the three cases |
| StatReader.Results | transport-catalogue/stat_reader.cpp:152-166 | one answer or exception per query, in order |
| StatReader.CollectPointwise | transport-catalogue/stat_reader.cpp:152-166 | a run that ends normally writes every answer in order; a run that throws writes only the answers before the first exception |
| StatReader.RepliesPointwise | transport-catalogue/stat_reader.cpp:152-166 | every query is answered in order, and a throwing query stops the run |
| StatReader.CollectSnoc | transport-catalogue/stat_reader.cpp:152-166 | after a run that ended normally, one more result either appends its answer or ends the run with its exception |
| StatReader.CollectFailFinal | transport-catalogue/stat_reader.cpp:152-166 | after an exception, later results are not looked at |
| StatReader.CollectSuccesses | transport-catalogue/stat_reader.cpp:152-166 | a run whose every result is an answer writes all the answers in order and ends normally |
| StatReader.CollectFirstFailure | transport-catalogue/stat_reader.cpp:152-166 | a run writes exactly the answers before its first exception and ends with that exception |
| StatReader.AnswerQuery | transport-catalogue/stat_reader.cpp:154-165 | the loop body answers one query exactly as Reply does: the bus or stop answer for the name cut after the tag the label test picks, or the exception of that cut |
| StatReader.AnswerQueries | transport-catalogue/stat_reader.cpp:152-166 | the query loop writes the answers and ends as Replies says: every answer in order, stopping at the first query that throws |
| StatReader.Output | transport-catalogue/stat_reader.cpp:146-167 | a count that `stoi` rejects throws before any answer; otherwise every announced line is readable and the answers and outcome are those Replies gives for them |
| StatReader.QueryName | transport-catalogue/stat_reader.cpp:158 | "<tag> <name>" names `name` |
| StatReader.BusQueryAnswered | transport-catalogue/stat_reader.cpp:156-161 | "Bus <name>" is answered as a bus query about that name |
| StatReader.StopQueryAnswered | transport-catalogue/stat_reader.cpp:164-165 | "Stop <name>" is answered as a stop query when the name does not contain "Bus" |
| StatReader.StopQueryMisread | transport-catalogue/stat_reader.cpp:155-156 | the label test finds "Bus" anywhere, so a stop whose name contains "Bus" is taken for a bus query |
| Strings.ToInt32 | transport-catalogue/transport_catalogue.cpp:97 | `static_cast<int>` keeps a value in range and wraps any other modulo 2^32 |
| Strings.Find | transport-catalogue/input_reader.cpp:17 | `find` returns the first occurrence, or npos when there is none |
| Strings.Stoi | transport-catalogue/input_reader.cpp:26 | a successful `stoi` is within `int` range; failure is invalid_argument or out_of_range, and the empty text is invalid_argument |
| Strings.StoiNoDigit | transport-catalogue/input_reader.cpp:26 | a text with no decimal digit at all is invalid_argument |
| Strings.StoiOfIntToString | transport-catalogue/input_reader.cpp:169 | the decimal text of a natural number in `int` range reads back with `stoi` |
| Ordered.Insert | transport-catalogue/transport_catalogue.cpp:64 | `std::set::insert` keeps the set sorted, adds the element once, and leaves a set that already holds it unchanged |
| Ordered.SortSet | transport-catalogue/json.cpp:615-627 | the traversal of a `std::set` lists each key exactly once |
| Ordered.SortSetSorted | transport-catalogue/json.cpp:615-627 | the keys of a `std::set` or `std::map` are traversed in strictly increasing order |
| Svg.Narrow | transport-catalogue/svg.h:25-29 | `int` to `uint8_t` keeps an in-range value and otherwise is congruent modulo 256 |
| Svg.MakeRgb | transport-catalogue/svg.h:25-29 | every channel is narrowed to a byte modulo 256 |
| Svg.MakeRgba | transport-catalogue/svg.h:34-42 | every channel is narrowed to a byte modulo 256 and the opacity is kept |
| Svg.RgbTextReadBack | transport-catalogue/svg.h:56-66 | an RGB colour prints as "rgb(r,g,b)" with decimal channels that read back with `stoi`; no colour prints as "none", like NoneColor |
| Svg.ParseCap | transport-catalogue/svg.cpp:11-19 | a keyword is read back only as the line cap that prints as it |
| Svg.ParseJoin | transport-catalogue/svg.cpp:30-44 | a keyword is read back only as the line join that prints as it |
| Svg.StyleTextsReadBack | transport-catalogue/svg.cpp:7-48 | butt/round/square and arcs/bevel/miter/miter-clip/round each read back as their own style, so no two styles share a keyword |
| Svg.Indented | transport-catalogue/svg.h:115-118 | the same step, and the indent grows by exactly one step |
| Svg.IndentedTimes | transport-catalogue/svg.h:115-118 | after k indentations the indent is k steps further in, with the same step |
| Svg.RenderIndent | transport-catalogue/svg.h:120-126 | the loop writes one space per unit of indent, none for a negative indent |
| Svg.Optional | transport-catalogue/svg.h:183-206 | an attribute is written exactly when its value is set |
| Svg.PathProps.constructor | transport-catalogue/svg.h:215-219 | no attribute is set |
| Svg.PathProps.SetFillColor | transport-catalogue/svg.h:146-150 | sets the fill; the other attributes are unchanged |
| Svg.PathProps.SetStrokeColor | transport-catalogue/svg.h:152-156 | sets the stroke; the other attributes are unchanged |
| Svg.PathProps.SetStrokeWidth | transport-catalogue/svg.h:158-162 | sets the width; the other attributes are unchanged |
| Svg.PathProps.SetStrokeLineCap | transport-catalogue/svg.h:164-168 | sets the line cap; the other attributes are unchanged |
| Svg.PathProps.SetStrokeLineJoin | transport-catalogue/svg.h:170-174 | sets the line join; the other attributes are unchanged |
| Svg.PathProps.Values | transport-catalogue/svg.h:215-219 | one optional value text per attribute, five in all |
| Svg.AttributeListOrdered | transport-catalogue/svg.h:179-207 | attributes are written in the fixed order fill, stroke, stroke-width, stroke-linecap, stroke-linejoin |
| Svg.AttributeListSound | transport-catalogue/svg.h:179-207 | only set attributes are written, each with its own value |
| Svg.AttributeListComplete | transport-catalogue/svg.h:179-207 | every set attribute is written; with nothing set nothing is written |
| Svg.PointTexts | transport-catalogue/svg.cpp:107-113 | one "x,y" text per point, in order |
| Svg.PointsReadBack | transport-catalogue/svg.cpp:95-118 | the points text cuts at spaces into one piece per point, each cutting at its comma into x and y |
| Svg.Polyline.constructor | transport-catalogue/svg.h:236-246 | no points, no attribute set |
| Svg.Polyline.AddPoint | transport-catalogue/svg.cpp:89-93 | appends the point |
| Svg.Polyline.RenderObject | transport-catalogue/svg.cpp:95-118 | the loop writes PolylineText: `<polyline points="" />` with no attributes when empty, else the points joined by spaces, then the attributes |
| Svg.Document.constructor | transport-catalogue/svg.h:288-293 | an empty document |
| Svg.Document.Add | transport-catalogue/svg.h:295-299 | the polyline's points and attributes are appended as one more shape |
| Svg.ReplaceAllAbsent | transport-catalogue/svg.cpp:156-164 | text without the symbol is left as it is |
| Svg.ReplaceAllFree | transport-catalogue/svg.cpp:156-164 | the symbol is gone when the replacement lacks it, and no new character appears |
| Svg.ChangeSymbol | transport-catalogue/svg.cpp:156-164 | the loop as written returns every occurrence replaced, and the symbol is gone, whenever the replacement lacks the symbol or the text has none |
| Svg.ChangeOnce | transport-catalogue/svg.cpp:160-163 | one pass replaces one character with the replacement, so the length changes by the replacement's length less one |
| Svg.ChangeTimes | transport-catalogue/svg.cpp:166-168 | when the replacement holds the symbol, after any number of passes the symbol is still there and the text has grown by that many replacements, so the loop never ends |
| Svg.ChangeSymbolForward | transport-catalogue/svg.cpp:156-164 | the corrected loop, which resumes after the inserted text, returns every occurrence replaced |
| Svg.EscapeSafe | transport-catalogue/svg.cpp:166-175 | escaped text holds no `"`, `'`, `<` or `>`, and text without the five special characters is unchanged |
| Svg.ProcessDataAsWritten | transport-catalogue/svg.cpp:166-175 | the five passes as written return the escaped text for input without `&` |
| Svg.ProcessData | transport-catalogue/svg.cpp:166-175 | the corrected passes return the escaped text for any input, free of `"`, `'`, `<` and `>` |
| Svg.FontAttribute | transport-catalogue/svg.cpp:187-195 | a font attribute is written exactly when its value is non-empty |
| Svg.Text.constructor | transport-catalogue/svg.h:267-272 | font size 1, empty family, weight and data |
| Svg.Text.SetPosition | transport-catalogue/svg.cpp:120-124 | sets the position only |
| Svg.Text.SetOffset | transport-catalogue/svg.cpp:126-130 | sets the offset only |
| Svg.Text.SetFontSize | transport-catalogue/svg.cpp:132-136 | sets the size only |
| Svg.Text.SetFontFamily | transport-catalogue/svg.cpp:138-142 | sets the family only |
| Svg.Text.SetFontWeight | transport-catalogue/svg.cpp:144-148 | sets the weight only |
| Svg.Text.SetData | transport-catalogue/svg.cpp:150-154 | stores the escaped text, which holds no `"`, `'`, `<` or `>` |
| Svg.Text.RenderObject | transport-catalogue/svg.cpp:177-199 | the element ends with the escaped data and `</text>`; with empty family and weight no font attribute is written |
| MapRenderer.CatalogueRoutes | transport-catalogue/map_renderer.cpp:48-54 | one route per bus, every bus listed, in strictly increasing name order, each with one coordinate per stop |
| MapRenderer.ColorPalettePicker.constructor | transport-catalogue/map_renderer.cpp:12-16 | the picker holds the palette and starts at index 0 |
| MapRenderer.ColorPalettePicker.GetColor | transport-catalogue/map_renderer.cpp:18-29 | the k-th call returns `palette[k mod n]` and the index stays in [0, n); an empty palette fails with out_of_range |
| MapRenderer.NextIndex | transport-catalogue/map_renderer.cpp:20-26 | the index after one more call is (calls + 1) mod n |
| MapRenderer.DrawnExactly | transport-catalogue/map_renderer.cpp:60-67 | exactly the routes with at least one stop are drawn |
| MapRenderer.DrawnSorted | transport-catalogue/map_renderer.cpp:60-67 | drawn routes keep the name order |
| MapRenderer.MapShapesPoints | transport-catalogue/map_renderer.cpp:60-67 | one polyline per drawn route, with one point per stop, each the projection of its stop, in stop order |
| MapRenderer.MapShapesPeriod | transport-catalogue/map_renderer.cpp:60-67 | the line colours repeat with the palette's period |
| MapRenderer.MapShapesNeighbours | transport-catalogue/map_renderer.cpp:60-67 | with two or more distinct palette colours, neighbouring lines differ in colour |
| MapRenderer.RenderRoute | transport-catalogue/map_renderer.cpp:72-96 | adds one polyline with fill "none", the colour, the line width, round cap and join, and one point per stop in order |
| MapRenderer.RenderMap | transport-catalogue/map_renderer.cpp:38-70 | draws each route with stops, in name order, with the next palette colour; fails exactly when the palette is empty and some route has stops |

## Left out

- Geographic distances and curvature, `geo::ComputeDistance`, `compute::Length` and `ComputeCurvature` are floating-point great-circle maths, and `geo.h` is not part of this model. The curvature a Bus answer reports is a function parameter.
- `SphereProjector` and `IsZero` are floating point. The projection is a function parameter of `RenderMap`.
- How doubles are written (stream formatting, `std::scientific`, coordinates, widths, opacity) is a function parameter `number: real -> string`. The `stod` branch of `ProcessNumber` and `CutCoords`' `stod` are left out. `Json.LoadNumber` reads a fraction, an exponent or an integer outside `int` as a Double node holding the exact decimal value: `stod`'s rounding to binary floating point and the out_of_range it throws on overflow or underflow are not modelled.
- `graph.h` and `router.h` are not part of this model. The shortest-path router is a function parameter `route`. `DirectedWeightedGraph` is modelled only as its vertex count and edge list. `request_handler` only forwards to them.
- `Reader.RouteItems` and `Reader.RouteItemsKnown` take `GetEdge` to check its id like `edges_.at`, throwing out_of_range on an unknown id; that is an assumption about `graph.h`.
- `serialization.cpp`/`.h` (generated protobuf glue) and `main.cpp` are not part of this model.
- The custom hashers are left out. Dafny maps stand in for the hash tables.
- Request parsing is left out: `ParseJSON`, `ParseBaseRequests`, `ParseStopRequest`, `ParseBusRequest`, `ParseStatRequest(s)`, `ParseRouteRequest`, `ParseRenderSettings` and `FormatColor`. The request queue is taken as already parsed. `ParseRoutingSettings` is modelled.
- `Document::Render`, `Object::Render`, `Circle` and `Drawable` are left out, and so is the text of the rendered map: `Reader.MapSettings` carries it as a function of the drawn shapes, with the palette, projection and line width the Map request draws with (`ParseRenderSettings` is left out with the other request parsing). `Document::Add` keeps the polyline's points and attributes as a value, since the object is moved in.
- Streams (`std::cin`, `getline`, `ostream`) are left out. Inputs are sequences of lines or characters; outputs are strings or values.
- The brace initialisation in `AddStop` leaves every stop's `edge_id` at 0, so as written every stop is vertex 0 and every edge is a loop on it. The model does not represent that graph: every stop's vertex id is its index in storage.
- `Reader.JsonReader.UpdateCatalogue`:
  - when a load fails midway, the contract says only that it failed with not-found; it does not state the partially loaded catalogue;
  - it requires a routing-settings record and a resolvable distance for every hop when a route is asked for, because the source dereferences both unchecked;
  - it requires that every non-round bus has a stop, because the reverse iterator is stepped past an empty list.
- `Reader.ExpandStops` requires a non-empty list for a non-round bus, for the same reason.
- `Router.TransportRouter.FillGraph` requires a stored distance, in some direction, for every hop of every bus, because `it_for_dist->second` is dereferenced unchecked.
- `Catalogue.TransportCatalogue.ComputeRouteLength` returns the `int` sum without the final cast to `double`, and the sum is unbounded. The `int` accumulator's overflow is not modelled. For a round-trip bus stored with no stops it gives length 0 (and `Catalogue.TransportCatalogue.RouteLength`/`RouteLengthFails` treat the empty list as having no hops), where the source steps `begin()` of an empty vector past `end()` and its behaviour is undefined; the Bus answer then reports 0 stops and length 0.
- `Catalogue.TransportCatalogue.ComputeStopsCount` and `Catalogue.TransportCatalogue.ComputeUniqueStopsCount` return the size as an unbounded natural, without the `static_cast<int>` of transport_catalogue.cpp:97 and :106. The cast is applied where the counts are answered, by `ToInt32` in `Reader.BusAnswer` and `StatReader.Data`.
- `Catalogue.TransportCatalogue.RouteLengthFails` counts a bus with no stops as having no hops and length 0, where the source's loop is undefined, as for `ComputeRouteLength` above.
- `StatReader.Curv` takes the sum as unbounded, with no `int` overflow. It requires a bus with at least one stop, because the source increments `begin()` of an empty vector.
- `StatReader.Data`: the sort and unique of the pointer copy are summarised as the number of distinct records. Its third value, the geographic length, is left out.
- `StatReader.Output` and `InputReader.Processing` require as many lines as the count announces. `getline` past the end is left out.
- `InputReader.CutSpaces` and the functions that call it require a non-space character, because an all-space text reaches `*next(end, -1)` on an empty string.
- `InputReader.Stop` keeps the coordinates as trimmed text, because `stod` is floating point. `parsers::Output` is `CutName` itself and has no separate member.
- `Svg.ChangeSymbol` and `Svg.ProcessDataAsWritten` require input on which the loop as written ends: a replacement without the symbol or a text without it, and text without `&`. `Svg.ChangeTimes` states the non-terminating case.
- `Svg.Text.SetData` stores the corrected escaping of `Svg.ProcessData`; the source's `SetData` calls the escaping as written, which never returns on text holding `&`, and the model does not represent that.
- `Svg.Text.SetFontSize` requires a size below 2^32, standing for the `uint32_t` parameter.
- `Svg.Indented` and `Svg.IndentedTimes` require that the `int` indent does not overflow.
- `Json.LoadNode`, `Json.LoadArray` and `Json.LoadDict` on a stream that ends where the source would read an indeterminate character (in `LoadArray` and `LoadDict`, the input ending right after `[` or `{`): a failed `>>` is modelled as ending the input, and the value of an uninitialised `c` is not modelled.
- `Json.PrintNode`, `Json.LoadPrinted` and `Json.PrintThenLoad` print an int as its digits and a double as the stream writes it, as the `out << value` of the `PrintValue` functor in json.h:69-76 does. json.cpp's free `PrintValue` overloads hide that functor and have no `int` or `double` case, so `PrintNode` as written converts a number to `bool` and prints `true` or `false`; that is modelled separately by `Json.PrintNodeAsWritten` (see Findings).
- The builder's context classes (`BaseContext`, `DictValueContext`, `DictItemContext`, `ArrayItemContext`) only forward to `Builder` and are left out.
- Between the `int` and `uint16_t` casts, `bus_wait_time` is kept as a natural number in [1, 1000] once it is validated.

## Findings

| source | as written | input that shows it | evidently intended | confidence | as-written member | corrected member |
|---|---|---|---|---|---|---|
| transport-catalogue/svg.cpp:166-168 | `ProcessData` first calls `ChangeSymbol(data, '&', "&amp;")`, whose loop searches from the start again after each replacement. | Any text holding `&`, e.g. `"&"`: every pass finds the `&` of the `&amp;` it just wrote. | Each `&` is replaced once, so the search resumes after the inserted entity. | not executed | Svg.ChangeTimes | Svg.ProcessData |
| transport-catalogue/json.cpp:632-636 | `PrintNode` visits the node with the free `PrintValue` overloads, which cover `bool`, `string`, `nullptr_t`, `Array` and `Dict` only, so an `int` or `double` is converted to `bool`. | The document `7`: it is printed as `true` and loads back as the bool `true`. | Numbers are printed as numbers, as json.h's `PrintValue` functor does with `out << value`, and a printed document loads back as itself. | not executed | Json.PrintNodeAsWritten | Json.PrintThenLoad |
| transport-catalogue/json.cpp:292-296 | The backslash-skipping loop at the head of `LoadNode` keeps `c == '\\'` once `input >> c` fails at the end of input. | The input `\`: every later read fails and leaves `c` a backslash. | Input that ends inside the loop is rejected as "Not valid json". | not executed | Json.EscapeLoopAsWritten | Json.SkipEscapes |
