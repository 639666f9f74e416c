# Verification model of the London Tube quiet-route service

This project models, in Dafny, the three parts of the service whose correctness is
not visible from any single function, and proves what they promise.

1. **Route search** (`Graphs`, `PriorityQueue`, `Search`, `Enumeration`, `QuietRoute`,
   `NetworkModel`, `Itineraries`, `TransportNetworks`). A network of stations, routes and
   edges is loaded, searched for the fastest path over pairs of a station and the edge used
   to get there (5 minutes per change of route), searched again for near-fastest paths under
   a travel-time ceiling, and one of those is chosen for being quiet. The search is proved
   optimal for every start, target and excluded set; the enumeration is proved to end and to
   be sound; the choice, the itinerary and the loaded indexes are proved against plain
   definitions.
2. **STOMP frames** (`Decimal`, `Frames`, `Refusals`, `LongValues`, `StompFrames`). Printing and
   parsing are proved to undo each other exactly on the printable frames, and the parser to
   accept exactly a grammar and to refuse every other text with the error that its fault
   stands for. The rules follow the code where it differs from the STOMP Protocol
   Specification, Version 1.2: no escapes, no carriage returns, and the first of repeated
   headers counts.
3. **The STOMP server, its client and its user** (`ServerModel`,
   `ServerOutcomes`, `StompServers`, `ClientModel`, `ClientOutcomes`, `StompClients`,
   `JointModel`, `Replies`, `MonitorModel`, `NetworkMonitors`). Each handler is one atomic
   step, as all of them run on one execution context. Properties are proved for all runs: of
   the server alone, of a client and the server over byte channels, both ways, among any other
   sessions, and of the monitor that consumes the server's callbacks.

## How to read it

- Code that changes things step by step is a method or a class here, with the source's loops
  and fields, and is proved against a specification function or predicate. The specification
  is then the subject of the lemmas.
- Objects that the source compares by pointer are values with an identity: a route carries
  the serial number of its allocation, an edge its route and its position on it, and a
  WebSocket session a number. A station is its id, since ids are unique in the network.
- Times and counts are natural numbers and integers. `Search.SumsFit32` and
  `Enumeration.EnumerationFits32` say when 32 bits suffice; crowding is wrapped to 32 bits
  explicitly. Percentages are real numbers and the conversion to an integer is the floor.
- What the environment decides is a parameter or part of an event: generated ids, the order in
  which an unordered map is walked, which of several equal entries a heap or an unstable sort
  yields, whether a request's JSON can be parsed, and the value of an uninitialized variable
  (`junk`; see `Frames.Validate`).
- A content-length too big for 64 bits leaves the parser's length at its initial 0, while the
  validator then compares an uninitialized variable. A header line whose colon is the last
  byte of the text makes the parser throw; this is an outcome of its own (`Thrown`).
- `TransportNetworks` keeps a ghost log of the routes added and the times set. Every index is
  proved to be what replaying the log gives.

Where code and documentation disagree, the code is followed. The header of the network
promises one travel time for all routes that connect two stations directly, but a line added
after the time was set starts from 0 (`TransportNetworks.TimesDisagree`). The promise is kept
exactly by lines that connect two stations directly only where the network's time is still 0
(`TransportNetworks.LineKeepsPromise`), which loading lines before times ensures. The
documentation does not restrict a message's destination, but one that is not a single line
does not survive its frame (`JointModel.FirstLineArrives`); all others do
(`JointModel.MessagesArriveInOrder`). A line that fails to load leaves the edges of its earlier
routes behind (`TransportNetworks.TransportNetwork.AddLine`).

The transport is assumed to announce each WebSocket session once and to keep texts in order;
generated ids are assumed new, non-empty and without new lines; the server's user is assumed
to have given all four callbacks.

## Model

| member | source | states |
|---|---|---|
| Graphs.WalkCost | src/transport-network.cpp:807-815 | the time accumulated along any walk is the start time, plus the ride times, plus 5 for every change of route |
| Graphs.DetourCost | src/transport-network.cpp:807-815 | any later stop of a walk is reached no earlier than an earlier stop's time plus the penalty of changing there straight to the later stop's route; so a detour never pays |
| Graphs.WalkJoin | src/transport-network.cpp:932-941 | a walk continued by a walk that starts at its exact last stop and time is a walk |
| PriorityQueue.PopLeast | src/transport-network.cpp:786-791 | some least entry leaves the queue and the rest stays; which of several least ones is left open |
| Search.DetourIsRelaxed | src/transport-network.cpp:807-836 | a stop whose walk returns to a station it has left offers no improvement to any neighbour |
| Search.ImproveLabels | src/transport-network.cpp:817-835 | recording an improvement keeps every label backed by a walk from the exact start that avoids the target before its end and leaves no station twice |
| Search.ImproveFrontier | src/transport-network.cpp:820-835 | after an improvement every label is either settled or queued with its current distance, and no queued distance exceeds the bound; stale entries are allowed |
| Search.Explore | src/transport-network.cpp:800-837 | after the loop over the outgoing edges no edge of the visited stop offers an improvement; a stop that had nothing to offer leaves the queue as it was; no sum exceeds the bound |
| Search.Settle | src/transport-network.cpp:786-798 | the entry taken is either of no use (stale, or a detour) or carries the final label of its stop, whose walk leaves no station twice |
| Search.Turn | src/transport-network.cpp:786-838 | one turn of the main loop keeps the invariant, and settles a new stop or shortens the queue; this is why the loop ends |
| Search.LabelStops | src/transport-network.cpp:771-838 | the main loop ends with an empty queue and every label settled and backed by its walk |
| Search.LabelsAreLeast | src/transport-network.cpp:786-838 | once the queue is empty, no walk from the start that does not pass the target arrives anywhere before its label |
| Search.Conclude | src/transport-network.cpp:840-851 | once the queue is empty, every walk to the target is matched by a label at the target that is no later, so no label there means no walk |
| Search.Nearest | src/transport-network.cpp:840-855 | a labelled stop at the target with the least distance is chosen, any of them if there are several; none only if no stop there is labelled |
| Search.WalkBack | src/transport-network.cpp:857-869 | walking back until the station of A comes up ends at the exact start stop: the path is the walk behind the label, without repeated stations, and every predecessor looked up exists |
| Search.FastestPath | src/transport-network.cpp:756-870 | for every graph, start stop, start time, target and excluded set: empty exactly if no walk avoiding the excluded stops exists, otherwise a walk from the exact start of least total time among all of them, visiting no station twice; if A and B are one station, that station at time 0; no sum computed exceeds the bound |
| Search.SumsFit32 | src/transport-network.cpp:807-815 | if start + (edges + 1) * (longest time + 5) is below 2^32, no sum of a search overflows 32 bits |
| Enumeration.HopsPerChange | inc/network-monitor/transport-network.h:47-54 | since no route repeats a stop, a walk has less than the longest route's length of hops between two changes |
| Enumeration.FinitelyManyJourneys | src/transport-network.cpp:904-969 | every journey under a travel-time ceiling lies in one finite set, even with zero travel times |
| Enumeration.RemovedStops | src/transport-network.cpp:913-923 | a stop is removed exactly if it is the next stop of an accepted path that shares the first idx stops with the latest one |
| Enumeration.SpliceIsJourney | src/transport-network.cpp:932-941 | root and spur path join to a walk from A that reaches B only at its end |
| Enumeration.DeviationIsFresh | src/transport-network.cpp:913-942 | a spliced path differs from every path accepted so far |
| Enumeration.Deviate | src/transport-network.cpp:908-943 | one spur stop adds at most one candidate, a journey that deviates there by a best way on; afterwards such a one is queued or accepted, if there is any way on |
| Enumeration.Deviations | src/transport-network.cpp:907-943 | afterwards a best way on from every stop of every accepted path is queued or accepted, if there is any, and the queue holds nothing but such deviations |
| Enumeration.NextPath | src/transport-network.cpp:945-968 | the next path is a candidate not accepted yet, under the ceiling, and the fastest such one, and no other new candidate is lost; none only if every candidate under the ceiling is already accepted |
| Enumeration.AlternativeIsSpur | src/transport-network.cpp:925-930 | a loopless alternative to the fastest path is, from where it leaves that path, a way on which the spur search may take |
| Enumeration.FastestPaths | src/transport-network.cpp:872-972 | for every well-formed network, any slowdown and any maxNPaths the enumeration ends; its paths are empty exactly if B cannot be reached, pairwise distinct, at most max(1, maxNPaths), journeys that reach B only at their end, the first optimal, no other faster than it or above the ceiling; every later path deviates by a best way on from one before it, and no way on from a path before it was faster unless taken already; fewer than maxNPaths are found only if every way on under the ceiling has been taken |
| Enumeration.DeviationIsBest | src/transport-network.cpp:913-942 | a deviation is none of the paths accepted until then, and no way on from its spur stop is faster |
| Enumeration.NextInTurn | src/transport-network.cpp:945-968 | accepting the fastest new candidate accepts the fastest way on from any path, among those not taken |
| Enumeration.NoneLeft | src/transport-network.cpp:945-968 | if no new candidate is under the ceiling, every way on under it has been taken |
| Enumeration.EndsWhenTooSlow | src/transport-network.cpp:904-969 | if fewer than maxNPaths paths are returned, every way on from the latest one takes longer than the slowdown allows |
| Enumeration.NextIsNoSlower | src/transport-network.cpp:904-969 | every path is no slower than any way on from the path accepted before it |
| Enumeration.SecondPath | src/transport-network.cpp:904-969 | if a second loopless journey under the ceiling exists and two paths are allowed, a second path is returned that is no slower than any such journey |
| Enumeration.EnumerationFits32 | src/transport-network.cpp:872-972 | if ceiling + (edges + 1) * (longest time + 5) is below 2^32, no sum of the whole enumeration overflows 32 bits |
| Enumeration.CeilingMeans | src/transport-network.cpp:901-903 | a time is under the ceiling exactly if it is at most the fastest time increased by the slowdown; for a non-negative slowdown the fastest time is |
| QuietRoute.GetPathCrowding | src/transport-network.cpp:974-983 | although the total is kept in 32 bits, the crowding is the wrapped sum of the passenger counts along the path, negative ones included |
| QuietRoute.CrowdingIsSum | src/transport-network.cpp:974-983 | crowding is the sum of the counts up to multiples of 2^32, and the plain sum when that is not negative and below 2^32 |
| QuietRoute.MostQuietPath | src/transport-network.cpp:570-592 | the fastest path if no other candidate is both below its crowding and at most crowding * (1 - quietness); otherwise the earliest of the least crowded candidates; although the running choice overwrites the list's first slot |
| QuietRoute.ChoiceIsQuieter | src/transport-network.cpp:580-592 | the fastest path is kept exactly if no other candidate is less crowded than it by the fraction asked for; any other choice is, and is the earliest of the least crowded |
| QuietRoute.ThresholdMeans | src/transport-network.cpp:577-579 | a crowding is at most the whole-number threshold exactly if it is at most the fastest path's crowding * (1 - quietness) |
| QuietRoute.PassengersAdd | src/transport-network.cpp:974-983 | the passengers of two stretches add up, and those of a single stop are the count of its station |
| NetworkModel.EdgesMean | src/transport-network.cpp:739-748 | the edges leaving a station are exactly the legs of the added routes that start there, each with the time last set for its two stations since the route was added, or 0 |
| NetworkModel.EdgesOnePerRoute | src/transport-network.cpp:739-748 | at most one edge of each route object leaves a station |
| NetworkModel.TimeIsLastSet | src/transport-network.cpp:353-367 | if lines come before times, the time of a leg is the time last set for the unordered pair of its stations |
| NetworkModel.TimeOfMeans | src/transport-network.cpp:353-367 | in any order of loading, the time of a leg is the time last set for its two stations, or 0 if none was set since its route was added |
| NetworkModel.AddingKeepsPromise | inc/network-monitor/transport-network.h:289-290 | all routes that connect two stations directly still take the same time after a route is added exactly if they did before and no time other than 0 is in force between two stations that the new route connects |
| NetworkModel.SettingKeepsPromise | src/transport-network.cpp:353-367 | setting a time never breaks that promise |
| NetworkModel.PromiseExactly | inc/network-monitor/transport-network.h:289-290 | for every history, the promise holds exactly if the last time set for two stations reached all routes connecting them, or none, or was 0 |
| NetworkModel.LoadOrderKeepsPromise | src/transport-network.cpp:165-212 | loading lines before times keeps the promise |
| NetworkModel.PairTimeMeans | src/transport-network.cpp:370-397 | the time found for two stations is that of the first edge from the one to the other, or else back, so of a route connecting them directly, and 0 where there is none, which is exactly where they are not adjacent |
| NetworkModel.AnswersAgree | inc/network-monitor/transport-network.h:306-307 | the promise holds exactly if asking for two stations, in either order, and asking for them on any route connecting them directly gives the same time |
| NetworkModel.TimesDifferOutOfOrder | inc/network-monitor/transport-network.h:289-290 | the promise that all routes between two stations take the same time fails for a line added after the time was set: concrete log |
| NetworkModel.GraphIsWellFormed | src/transport-network.cpp:732-748 | the graph built from well-formed routes is one on which the searches are proved |
| NetworkModel.RouteWalk | src/transport-network.cpp:419-446 | riding along a route from one of its stops to a later one is a walk without changes whose time is the ride's |
| NetworkModel.TakeUp | src/transport-network.cpp:807-815 | a walk started without an incoming edge can be taken up from any stop at its station, arriving at most 5 later than the two times together |
| NetworkModel.ServesMeans | src/transport-network.cpp:321-325 | a stop list contains a station exactly if a leg leaves it or the route ends there, and with distinct stops not both |
| TransportNetworks.TransportNetwork.AddStation | src/transport-network.cpp:215-234 | refused exactly if the id is known; otherwise the station is added with no passengers and no edges, and nothing else changes |
| TransportNetworks.TransportNetwork.RecordPassengerEvent | src/transport-network.cpp:266-287 | refused exactly for an unknown station; otherwise that station's count changes by one and nothing else does |
| TransportNetworks.TransportNetwork.AddRouteToLine | src/transport-network.cpp:710-754 | refused exactly if the id is taken in the line or a stop is unknown, then changing nothing; otherwise the route object is added to the network and to the line |
| TransportNetworks.TransportNetwork.AddLine | src/transport-network.cpp:236-264 | accepted exactly if the line is new and all its routes are; otherwise no line is listed, but the routes before the first refused one stay in the network; all routes between two stations keep taking one time exactly if the network's time was 0 wherever the line connects two stations |
| TransportNetworks.TransportNetwork.SetTravelTime | src/transport-network.cpp:340-368 | the edges between the two stations in both directions take the time, no other edge changes; true exactly if both stations exist and such an edge does; the promise of one time for all routes is kept |
| TransportNetworks.TransportNetwork.GetTravelTime | src/transport-network.cpp:370-397 | in whatever order the network was loaded, the time of the first edge from A to B, or else from B to A, or else 0; it is the time on every route connecting the two if those agree, and the time last set for the unordered pair if lines were loaded before times |
| TransportNetworks.LineKeepsPromise | inc/network-monitor/transport-network.h:289-290 | what can be asked before a line is loaded: while the promise holds, the line keeps it exactly if the network's time is 0 for every two stations that one of its loaded routes connects directly |
| TransportNetworks.TimesDisagree | inc/network-monitor/transport-network.h:306-307 | the input for which the promise fails, on the object: for any two stations, two lines and a time set between loading them, the pair and the first route have that time and the second route has 0 |
| TransportNetworks.LayoutKeepsPromise | src/transport-network.cpp:165-212 | after loading a layout into a network without times, all routes between two stations take the same time |
| TransportNetworks.TransportNetwork.GetTravelTimeOnRoute | src/transport-network.cpp:399-447 | the ride from A to B if A does not come after B on the route, and 0 in every other case |
| TransportNetworks.TransportNetwork.GetRoutesServingStation | src/transport-network.cpp:302-338 | each route object is reported at most once: those with a leg leaving the station, and those of listed lines that end there |
| TransportNetworks.EveryRouteServed | src/transport-network.cpp:302-338 | with no failed line, the routes reported for a station are as a multiset each route whose stop list contains it exactly once |
| TransportNetworks.TransportNetwork.FromJson | src/transport-network.cpp:159-213 | loading throws exactly if a station or line id is known or repeated or a route is refused; otherwise all stations and lines are present, the log holds their routes and then the times in order, and the flag says whether every time could be set; an exception for a station leaves the stations before it, one for a line all stations, the lines before it and the routes before the refused one, and no times; new stations have their names and no passengers, earlier ones keep theirs |
| TransportNetworks.TransportNetwork.LoadStations | src/transport-network.cpp:165-174 | the stations before the first known id are added, each with its name and no passengers; those known before keep their names and passengers |
| TransportNetworks.LoadedTimes | src/transport-network.cpp:165-212 | after loading a layout into a network without times, every pair has the time last given for it in the layout |
| TransportNetworks.StillSettable | src/transport-network.cpp:203-210 | setting times does not change which stations are adjacent |
| TransportNetworks.TransportNetwork.GetFastestTravelRoute | src/transport-network.cpp:449-517 | unknown stations give the default route, equal stations a single step of time 0, unreachable ones no steps; otherwise the itinerary of a walk of least time that visits no station twice |
| TransportNetworks.TransportNetwork.GetQuietTravelRoute | src/transport-network.cpp:519-619 | as the fastest route, but the itinerary is that of the quiet choice among the enumerated paths |
| TransportNetworks.QuietUnderCeiling | src/transport-network.cpp:551-574 | the quiet route exists exactly if the fastest one does, is no faster, and at most slower by the slowdown |
| TransportNetworks.FastestBeatsRoute | src/transport-network.cpp:419-446 | if A comes before B on a route, the fastest route exists and takes no longer than that route's own travel time |
| TransportNetworks.FastestTriangle | src/transport-network.cpp:449-517 | where A leads to B and B to C, A leads to C, and fastest(A,C) <= fastest(A,B) + fastest(B,C) + 5 |
| Itineraries.Assemble | src/transport-network.cpp:494-516 | the assembled route has one step per ride of the path and its total time |
| Itineraries.ItineraryConserved | src/transport-network.cpp:494-516 | steps lead from A to B without gaps, each is a leg of the route it names with that leg's time, and the total is the step times plus 5 per change of named route |
| TransportNetworks.RouteConserved | src/transport-network.cpp:596-618 | the same for every journey in a network without failed lines |
| Decimal.ReadPrint | src/stomp-frame.cpp:29-39 | printing a number below 2^64 and reading it back gives the number |
| Decimal.PrintMeans | inc/network-monitor/stomp-client.h:283-295 | the printed number is a non-empty digit string of that value |
| Frames.CommandNames | src/stomp-frame.cpp:43-94 | looking up a command's printed name gives the command back, and no name contains a new line |
| Frames.HeaderNames | src/stomp-frame.cpp:98-153 | looking up a header's printed name gives the header back, and no name contains a delimiter |
| Frames.SpelledIsParsed | src/stomp-frame.cpp:352-462 | every text made of a command line, valid header lines, a blank line, a body delimited as the headers say, a NUL and then only new lines is accepted with these parts, the first of repeated headers winning |
| Frames.ParsedIsSpelled | src/stomp-frame.cpp:352-462 | every accepted text is of that form |
| Frames.ParserAcceptsGrammar | src/stomp-frame.cpp:352-462 | a text is accepted with given parts if and only if it spells them |
| Frames.RoundTrip | src/stomp-frame.cpp:257-284 | for every order in which the header map is walked, printing and parsing gives exactly the same parts back if and only if the command and headers are known, the values are non-empty single lines and the body is delimited as the headers say |
| Frames.Canonical | src/stomp-frame.cpp:352-462 | printing what was parsed, in any order of headers, and parsing it again gives the same parts |
| Frames.ValidationAfterParsing | src/stomp-frame.cpp:465-528 | after parsing, validation reports a missing header exactly if one is missing, and a length mismatch exactly if none is, the declared length does not fit 64 bits (the body is then empty) and the uninitialized length is not 0; it reports nothing else |
| Refusals.LineRefused | src/stomp-frame.cpp:378-399 | a header line is refused exactly for no colon, an unknown name, an empty value or a missing new line, each with its own error, and throws exactly if the text ends with the colon of a known header |
| Refusals.DeclaredMeans | src/stomp-frame.cpp:29-39 | a content-length value declares the number its leading digits spell, or 0 if that does not fit 64 bits, and is invalid exactly if it starts with no digit |
| Refusals.BodyRefused | src/stomp-frame.cpp:419-456 | a body is refused exactly for an invalid length, a length beyond the text, a NUL that is not where it should be or junk after it, each with its own error |
| Refusals.ParserRefusesExactly | src/stomp-frame.cpp:352-462 | for every text and every error: the parser reports the error if and only if the text has the fault the error stands for, said about the text itself |
| Refusals.ParserThrowsExactly | src/stomp-frame.cpp:391-391 | the parser throws if and only if the text ends with the colon of a known header where a header line should be |
| Refusals.AcceptedExactly | src/stomp-frame.cpp:352-462 | every text is accepted, or has a fault, or makes the parser throw |
| Refusals.RequiredMeans | src/stomp-frame.cpp:465-508 | which commands cannot do without which header |
| Refusals.ValidationRefusesExactly | src/stomp-frame.cpp:465-528 | for all parts and every error, exactly when validation reports it |
| StompFrames.ParseHeaderLine | src/stomp-frame.cpp:379-409 | the index arithmetic of one header line takes the branch, error or exception of the specification |
| StompFrames.ParseHeaderLines | src/stomp-frame.cpp:374-410 | the loop over the header lines finds the specified headers and blank line |
| StompFrames.FindBodyLength | src/stomp-frame.cpp:419-450 | the body ends at the declared length or the first NUL, with the specified errors |
| StompFrames.ParseBodyFrom | src/stomp-frame.cpp:419-456 | the body is accepted exactly if only new lines follow its NUL |
| StompFrames.PrintFrame | src/stomp-frame.cpp:264-279 | the constructor's loop prints each entry of the header map once, in some order |
| StompFrames.StompFrame.ParseFrame | src/stomp-frame.cpp:352-462 | the parts become those parsed if the text is accepted, and stay as they were on every error and exception |
| StompFrames.StompFrame.ValidateFrame | src/stomp-frame.cpp:465-528 | the checks made are those of the specification, command by command |
| StompFrames.StompFrame.FromComponents | src/stomp-frame.cpp:257-284 | the frame's text is a printing of the components, checked again; parsing it gives the components back exactly if they are printable |
| StompFrames.RejectedIsError | src/stomp-frame.cpp:352-462 | no rejecting branch returns the code for success |
| ServerModel.RegisterKeeps | inc/network-monitor/stomp-server.h:444-454 | registering an announced session under a new id keeps the invariant |
| ServerModel.ForgetKeeps | inc/network-monitor/stomp-server.h:585-586 | erasing a connection from both maps keeps the invariant; if it was connected its callbacks so far are a connect and messages |
| ServerModel.PromoteKeeps | inc/network-monitor/stomp-server.h:633-665 | promoting a pending connection and posting its connect callback keeps the invariant |
| ServerModel.ConnectedFrameOk | inc/network-monitor/stomp-server.h:638-654 | for a non-empty single-line id the CONNECTED frame is always valid, so the branch for an invalid one is unreachable |
| ServerModel.NextKeeps | inc/network-monitor/stomp-server.h:427-713 | every event of the server keeps the two maps inverse and the callbacks of every connection in step with its state |
| ServerModel.MapsStayInverse | inc/network-monitor/stomp-server.h:414-425 | in every run the connection map and the session map are exact inverses |
| ServerModel.CallbackLanguage | inc/network-monitor/stomp-server.h:457-548 | in every run the callbacks posted, and those delivered, for one connection id are connect, then messages, then at most one disconnect |
| ServerModel.PhaseNeverFalls | inc/network-monitor/stomp-server.h:385-389 | a connection only moves from unassigned to pending to connected to gone |
| ServerModel.NothingAfterRemoval | inc/network-monitor/stomp-server.h:572-593 | once a connection is gone it stays gone and nothing more is posted for it, whatever happens next |
| ServerModel.SendSucceedsWhenConnected | inc/network-monitor/stomp-server.h:236-300 | sending succeeds exactly for connected clients and valid frames, and the branch for a session without a connection is unreachable |
| ServerOutcomes.EveryStepExactly | inc/network-monitor/stomp-server.h:427-713 | every event posts exactly the callback it causes, asks of every session exactly what it should, and leaves every session the connection it should have, said about the event and not about the handlers |
| ServerOutcomes.PromotedExactly | inc/network-monitor/stomp-server.h:595-666 | a pending session that is heard is promoted if and only if its text is a valid STOMP frame of version 1.2 for the server's host, stays pending if and only if parsing throws, and is closed in all other cases |
| ServerOutcomes.SendAsksExactly | inc/network-monitor/stomp-server.h:228-301 | a request id is returned exactly if the frame goes to the session of that connection; nothing goes to any other session |
| ServerOutcomes.CallbackCauses | inc/network-monitor/stomp-server.h:427-713 | in every run, a callback has been posted if and only if some event of the run caused it |
| ServerOutcomes.ConnectedByGreeting | inc/network-monitor/stomp-server.h:611-665 | in every run, the user is told of a client if and only if its session, while pending, has sent a valid STOMP frame of version 1.2 for the server's host |
| StompServers.StompServer.OnWsSessionConnect | inc/network-monitor/stomp-server.h:427-455 | the whole new state: a pending connection in both maps, or a closed session on error; the maps stay inverse, as in every handler |
| StompServers.StompServer.OnWsSessionMessage | inc/network-monitor/stomp-server.h:457-516 | the whole new state for every message, with the frame texts actually built; it throws exactly if parsing does, and then nothing has changed |
| StompServers.StompServer.HandleStomp | inc/network-monitor/stomp-server.h:595-666 | the whole new state: closed on a wrong version, host or repeated connection, in this order, otherwise promoted, told and posted |
| StompServers.StompServer.HandleSend | inc/network-monitor/stomp-server.h:668-713 | the whole new state: closed if not connected, otherwise the message is posted |
| StompServers.StompServer.OnWsSessionDisconnect | inc/network-monitor/stomp-server.h:518-548 | the whole new state: forgotten, with a disconnect callback exactly if it was connected |
| StompServers.StompServer.CloseConnection | inc/network-monitor/stomp-server.h:572-593 | the whole new state: forgotten, an ERROR frame if a reason was given, then a close; no callback |
| StompServers.StompServer.Send | inc/network-monitor/stomp-server.h:228-301 | the whole new state and the returned request id: the frame goes to the session of that connection; the id is not empty exactly if the client is connected and a valid frame was built; a session without a connection cannot come up |
| StompServers.StompServer.Close | inc/network-monitor/stomp-server.h:310-363 | the whole new state after closing one connection: its id is gone, and an unknown id changes nothing; a session without a connection cannot come up |
| StompServers.StompServer.Stop | inc/network-monitor/stomp-server.h:373-382 | both maps are empty, every connected or pending session is asked to close, no callback is posted |
| StompClients.StompClient.OnWsConnect | inc/network-monitor/stomp-client.h:357-409 | the STOMP frame is sent, or an error reported if the connection failed or the frame is invalid |
| StompClients.StompClient.OnWsMessage | inc/network-monitor/stomp-client.h:464-519 | the user is told of the connection on a CONNECTED frame, of a message on a SEND frame, of an error on an invalid frame |
| StompClients.StompClient.Send | inc/network-monitor/stomp-client.h:274-318 | the frame built from the arguments is sent and its id returned, or nothing is sent and the empty id returned |
| ClientOutcomes.HearsExactly | inc/network-monitor/stomp-client.h:464-519 | hearing a text posts exactly the callback it leads to: connected for a valid CONNECTED frame, the message for a valid SEND frame, an error for any frame refused |
| ClientOutcomes.OpensExactly | inc/network-monitor/stomp-client.h:357-409 | the STOMP frame is sent exactly if the transport is up and the frame valid, which it is for single-line credentials; otherwise the user is told of the right error |
| ClientOutcomes.SendsExactly | inc/network-monitor/stomp-client.h:274-318 | the request id is returned and the frame sent exactly if the frame is valid, which it is for a single-line destination |
| ClientOutcomes.CredentialsAreRead | inc/network-monitor/stomp-client.h:378-397 | the server reads in the STOMP frame the version, the host, the login and the passcode of the client, and nothing else |
| ClientOutcomes.AnswersAreRead | inc/network-monitor/stomp-server.h:638-654 | the client reads version and connection id in the CONNECTED frame, and always UnsupportedFrame in the ERROR frame |
| ClientOutcomes.MessageIsRead | inc/network-monitor/stomp-client.h:283-297 | either side reads in a message to a single line its id, destination and content |
| JointModel.PrintedCommand | src/stomp-frame.cpp:266-269 | a printed frame that is parsed at all is parsed with the command it was printed with |
| JointModel.DecodeBuilt | inc/network-monitor/stomp-client.h:285-297 | a valid frame is read as the message it was built for if and only if the destination is a single line |
| JointModel.FirstLineArrives | inc/network-monitor/stomp-client.h:285-297 | the input for which it is not: a destination that goes on, after a new line, like a login header prints a valid frame in any order of headers, and is read as its first line alone |
| LongValues.WalksAsTwo | src/stomp-frame.cpp:266-275 | printing a header whose value goes on like another header is printing two headers, whatever the order of the map |
| JointModel.PendingStepView | inc/network-monitor/stomp-server.h:595-666 | the only way a pending session stays up after hearing a frame is a STOMP frame that promotes it, sends CONNECTED and posts connect together |
| JointModel.ConnectedStepView | inc/network-monitor/stomp-server.h:688-712 | a SEND frame from a connected session posts exactly the message the text carries, or the session is closed |
| JointModel.OtherStepView | inc/network-monitor/stomp-server.h:427-713 | no other step of the server shows to the session, except that it may be closed, with a disconnect callback only on a disconnect |
| JointModel.NextKeeps | inc/network-monitor/stomp-client.h:357-574 | every step of client, server or channel keeps the joint invariant |
| JointModel.ToldOnceAfterPromotion | inc/network-monitor/stomp-client.h:560-574 | in every joint run the client is told of the connection at most once, and only after the server promoted that very connection and posted its connect callback |
| JointModel.MessagesArriveInOrder | inc/network-monitor/stomp-server.h:688-712 | in every joint run the messages posted to the server's user stand for the first ones the client sent, in order, each unchanged if and only if its destination is a single line; while the connection is up all others are still in the channel |
| JointModel.HandshakeConnects | inc/network-monitor/stomp-client.h:378-408 | with the right host and valid credentials an undisturbed handshake ends with both users told |
| Replies.AskedMessages | inc/network-monitor/stomp-server.h:282-297 | the only messages the server sends to a session are those of its user to that connection; all its other frames are valid and no messages |
| Replies.RepliesArriveInOrder | inc/network-monitor/stomp-server.h:228-301 | in every joint run, what the client's user hears stands for the first messages sent to its connection with a non-empty returned id, in order, each unchanged if and only if its destination is a single line; all others are still in the channel |
| MonitorModel.ConnectedWasPosted | inc/network-monitor/stomp-server.h:657-665 | a connected id has its connect callback, and no disconnect, in the queue |
| MonitorModel.ServerKeeps | inc/network-monitor/stomp-server.h:633-665 | any step of the server keeps every connected id covered |
| MonitorModel.HandlingKeeps | inc/network-monitor/network-monitor.h:461-535 | handling the next callback keeps every connected id covered |
| MonitorModel.MessageHandledExactly | inc/network-monitor/network-monitor.h:472-524 | a readable quiet-route request is answered to the client that asked, if still connected, and changes nothing else; any other message has its connection closed and its id taken off the list |
| MonitorModel.OthersHandledExactly | inc/network-monitor/network-monitor.h:461-535 | a connect callback lists the id, a disconnect callback takes it off, and neither touches the server |
| MonitorModel.MonitorCoverage | inc/network-monitor/network-monitor.h:461-535 | in every run, under every interleaving, each id the server holds as connected is listed by the monitor or has its connect callback still queued |
| MonitorModel.LingeringIds | inc/network-monitor/stomp-server.h:572-593 | an id that is listed but no longer connected has no disconnect callback, or has it still queued |
| MonitorModel.ServerClosesLinger | inc/network-monitor/stomp-server.h:572-593 | in every run, once a connected client is closed and all callbacks about it are handled, none of its messages having been turned away since, its id is still listed if and only if the server closed it itself rather than the transport |
| NetworkMonitors.NetworkMonitor.OnQuietRouteClientConnect | inc/network-monitor/network-monitor.h:461-470 | the id is listed |
| NetworkMonitors.NetworkMonitor.OnQuietRouteClientMessage | inc/network-monitor/network-monitor.h:472-524 | a client asking for another destination (the error code stays) or unreadably (it is set) is closed and delisted; otherwise it is sent the quiet route for the stations it named |
| NetworkMonitors.NetworkMonitor.OnQuietRouteClientDisconnect | inc/network-monitor/network-monitor.h:526-535 | the id is delisted and the error code set |

## Left out

- Completeness and order of the enumerated paths: the root comparison leaves out the spur stop and root stations are not banned, so the list is neither all paths under the ceiling nor sorted; what is proved is that each path is a best way on from one before it, accepted in turn.
- 64-bit overflow of passenger counts, and rounding of floating-point percentages; values for which the conversion to an unsigned integer is undefined are not told apart.
- JSON and date parsing, file download, TLS, WebSocket and Asio plumbing, logging, environment variables, error-code names, mocks and certificates.
- Copying and moving of networks and frames, and the string views into a frame's text: values are used instead, so aliasing and lifetimes are not captured.
- Shared ownership of stations, edges and lines: a station's node is an entry of the network's map and is replaced when its edges or its count change; a line under construction is passed along and returned.
- Client subscriptions, their receipts and messages, and the network-events side of the monitor.
- Acknowledgements, transactions and heart-beats, which are only names in the tables.
- Completion handlers of individual send and close operations.
- GetPassengerCount and the lookups of a frame's single headers, which would only add easy members.
- StompClients.StompClient.OnWsMessage: ignores MESSAGE and RECEIPT frames, which the source hands to the subscriptions left out above.
- StompServers.StompServer.OnWsSessionConnect: asks that an announced session and a generated id are new, as the transport and the id generator are assumed to ensure.
- Replies.RepliesArriveInOrder: says that messages with a request id of several lines keep their place, but not what is read in them, which depends on the order of the printed headers.
