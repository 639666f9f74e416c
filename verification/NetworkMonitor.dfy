/** The network monitor object: its quiet-route handlers, proved against
    MonitorModel and the quiet-route search. */
module NetworkMonitors {
  import opened Wrappers
  import opened Graphs
  import opened Enumeration
  import opened Itineraries
  import opened TransportNetworks
  import opened StompFrames
  import S = ServerModel
  import M = MonitorModel
  import opened StompServers

  datatype MonitorError =
    | MonitorOk | UndefinedMonitorError | CouldNotParseQuietRouteRequest | StompServerClientDisconnected
    | StompServerDisconnected

  /** The stations a quiet-route request asks for. */
  datatype Request = Request(startStationId: Id, endStationId: Id)

  class NetworkMonitor {
    const server: StompServer
    const network: TransportNetwork
    const maxSlowdownPc: real
    const minQuietnessPc: real
    const maxNPaths: nat
    var connectedClients: set<S.ConnectionId>
    var lastErrorCode: MonitorError
    var lastTravelRoute: TravelRoute

    constructor (server: StompServer, network: TransportNetwork,
                 maxSlowdownPc: real, minQuietnessPc: real, maxNPaths: nat)
      ensures this.server == server && this.network == network && connectedClients == {}
      ensures this.maxSlowdownPc == maxSlowdownPc && this.minQuietnessPc == minQuietnessPc
      ensures this.maxNPaths == maxNPaths
    {
      this.server, this.network := server, network;
      this.maxSlowdownPc, this.minQuietnessPc, this.maxNPaths := maxSlowdownPc, minQuietnessPc, maxNPaths;
      connectedClients, lastErrorCode := {}, UndefinedMonitorError;
      lastTravelRoute := TravelRoute("", "", 0, []);
    }

    method OnQuietRouteClientConnect(id: S.ConnectionId)
      modifies this
      ensures connectedClients == M.ClientsAfter(old(connectedClients), S.OnClientConnect(id), true)
      ensures lastErrorCode == MonitorOk && lastTravelRoute == old(lastTravelRoute)
    {
      connectedClients := connectedClients + {id};
      lastErrorCode := MonitorOk;
    }

    method OnQuietRouteClientDisconnect(id: S.ConnectionId, clean: bool)
      modifies this
      ensures connectedClients == M.ClientsAfter(old(connectedClients), S.OnClientDisconnect(id, clean), true)
      ensures lastErrorCode == StompServerClientDisconnected && lastTravelRoute == old(lastTravelRoute)
    {
      connectedClients := connectedClients - {id};
      lastErrorCode := StompServerClientDisconnected;
    }

    /** Answers a request, or closes the connection of a client that asks for
        something else. `request` is what the content parses to, `dump` prints
        a route, and `newId` is used if the request carries no id. */
    method OnQuietRouteClientMessage(id: S.ConnectionId, destination: string, requestId: string, content: string,
                                     request: Option<Request>, dump: TravelRoute -> string, newId: string, junk: nat)
      returns (ghost text: string, ghost paths: seq<Path>, ghost k: int)
      requires network.Valid() && server.Valid()
      modifies this, server
      ensures server.Valid()
      ensures var c := S.OnClientMessage(id, destination, requestId, content);
              var rid := if requestId == "" then newId else requestId;
              var r := M.ReactionTo(c, request.Some?, rid, dump(lastTravelRoute), text, junk);
              && connectedClients == M.ClientsAfter(old(connectedClients), c, request.Some?)
              && server.State() == S.Apply(old(server.State()), r.event)
      ensures destination == M.QUIET_ROUTE && request.Some? ==>
        && lastErrorCode == MonitorOk
        && AnswersRequest(network.stations, request.value, maxSlowdownPc, minQuietnessPc, maxNPaths, paths, k,
                          lastTravelRoute)
        && S.Built(text, S.SendParts(if requestId == "" then newId else requestId, M.QUIET_ROUTE,
                                     dump(lastTravelRoute)))
      ensures destination != M.QUIET_ROUTE || request.None? ==> lastTravelRoute == old(lastTravelRoute)
      ensures destination != M.QUIET_ROUTE ==> lastErrorCode == old(lastErrorCode)
      ensures destination == M.QUIET_ROUTE && request.None? ==> lastErrorCode == CouldNotParseQuietRouteRequest
    {
      hide S.Built, Check, S.Send, S.Close, S.Inverse, S.SendParts, Enumerated, QuietestRoute, Consistent;
      text, paths, k := "", [], 0;
      if destination != M.QUIET_ROUTE {
        server.Close(id, junk);
        connectedClients := connectedClients - {id};
        return;
      }
      if request.None? {
        lastErrorCode := CouldNotParseQuietRouteRequest;
        server.Close(id, junk);
        connectedClients := connectedClients - {id};
        return;
      }
      var travelRoute;
      travelRoute, paths, k := network.GetQuietTravelRoute(
        request.value.startStationId, request.value.endStationId, maxSlowdownPc, minQuietnessPc, maxNPaths);
      var sent;
      sent, text := server.Send(id, M.QUIET_ROUTE, dump(travelRoute), requestId, newId, junk);
      lastErrorCode := MonitorOk;
      lastTravelRoute := travelRoute;
    }

    method OnQuietRouteDisconnect()
      modifies this`lastErrorCode
      ensures lastErrorCode == StompServerDisconnected
    {
      lastErrorCode := StompServerDisconnected;
    }
  }

  /** The route answers the request: a default for unknown stations, staying put,
      or the quiet choice among the enumerated paths. */
  ghost predicate AnswersRequest(stations: Nodes, request: Request, maxSlowdownPc: real, minQuietnessPc: real,
                                 maxNPaths: nat, paths: seq<Path>, k: int, route: TravelRoute)
  {
    var a, b := request.startStationId, request.endStationId;
    if a !in stations || b !in stations then route == TravelRoute("", "", 0, [])
    else if a == b then route == Stay(a)
    else
      && Enumerated(Net(stations), a, b, maxSlowdownPc, maxNPaths, paths)
      && QuietestRoute(CountsOf(stations), a, b, paths, minQuietnessPc, k, route)
  }
}
