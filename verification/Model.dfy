/** The records the controller and the agent exchange (pkg/model). */
module Model {
  datatype PolicyRule = PolicyRule(prefix: string, viaNode: string, path: seq<string>, domains: seq<string>) {
    predicate Valid() {
      (prefix != "" || domains != []) && (viaNode != "" || path != [])
    }
  }

  datatype Node = Node(
    id: string,
    publicKey: string,
    privateKey: string,
    endpoints: seq<string>,
    cidrs: seq<string>,
    configVersion: string,
    version: string,
    listenPort: int,
    overlayIP: string,
    asn: int,
    routerID: string,
    egressPeerID: string,
    policyRules: seq<PolicyRule>,
    defaultRoute: bool,
    bypassCIDRs: seq<string>,
    defaultRouteNextHop: string,
    provisionToken: string,
    peerEndpoints: map<string, string>)

  const ZERO_NODE := Node("", "", "", [], [], "", "", 0, "", 0, "", "", [], false, [], "", "", map[])

  datatype Peer = Peer(id: string, publicKey: string, endpoint: string, allowedIPs: seq<string>, keepalive: int)

  datatype HealthReport = HealthReport(
    nodeID: string,
    status: string,
    latencyMs: map<string, int>,
    frrState: map<string, string>,
    timestamp: int)

  datatype Plan = Plan(
    nodeID: string,
    version: int,
    configVersion: string,
    peers: seq<Peer>,
    routes: seq<string>,
    signature: string,
    egressPeerID: string,
    policyRules: seq<PolicyRule>,
    peerEndpoints: map<string, string>,
    defaultRoute: bool,
    bypassCIDRs: seq<string>,
    defaultRouteNextHop: string)
}
