/**
  The node table: prepare hands out identities and overlay addresses, register merges
  what agents and operators send, policy updates set the policy fields.
 */
module Registration {
  import opened Seqs
  import opened Text
  import opened Model

  datatype NodeTable = NodeTable(nodes: map<string, Node>, version: map<string, nat>)

  const EMPTY := NodeTable(map[], map[])

  function VersionString(v: nat): string {
    "v0.0." + Dec(v)
  }

  function Counter(t: NodeTable, id: string): nat {
    if id in t.version then t.version[id] else 0
  }

  function Upsert(t: NodeTable, n: Node): NodeTable {
    var v := Counter(t, n.id) + 1;
    NodeTable(t.nodes[n.id := n.(version := VersionString(v), configVersion := VersionString(v))],
              t.version[n.id := v])
  }

  // ---- register ----

  datatype Request = Request(
    id: string,
    publicKey: string,
    endpoints: seq<string>,
    cidrs: seq<string>,
    listenPort: int,
    overlayIP: string,
    asn: int,
    routerID: string,
    peerEndpoints: map<string, string>,
    provisionToken: string,
    headerToken: string,
    force: bool)

  function Token(req: Request): string {
    if req.provisionToken == "" then req.headerToken else req.provisionToken
  }

  const STUB_KEY := "stub-public-key"

  function Submitted(req: Request): Node {
    ZERO_NODE.(
      id := req.id,
      publicKey := if req.publicKey == STUB_KEY then "" else req.publicKey,
      endpoints := req.endpoints,
      cidrs := req.cidrs,
      listenPort := req.listenPort,
      overlayIP := req.overlayIP,
      asn := req.asn,
      routerID := req.routerID,
      peerEndpoints := req.peerEndpoints,
      provisionToken := Token(req))
  }

  /** The stored record fills what was not submitted. Overlay address and token always come from the record once set. */
  function Merge(n: Node, stored: Node): Node {
    n.(publicKey := if n.publicKey == "" then stored.publicKey else n.publicKey,
       privateKey := if n.privateKey == "" then stored.privateKey else n.privateKey,
       overlayIP := if stored.overlayIP != "" then stored.overlayIP else n.overlayIP,
       provisionToken := stored.provisionToken,
       listenPort := if n.listenPort == 0 then stored.listenPort else n.listenPort,
       asn := if n.asn == 0 then stored.asn else n.asn,
       routerID := if n.routerID == "" then stored.routerID else n.routerID,
       endpoints := if n.endpoints == [] then stored.endpoints else n.endpoints,
       cidrs := if n.cidrs == [] then stored.cidrs else n.cidrs,
       peerEndpoints := if n.peerEndpoints == map[] then stored.peerEndpoints else n.peerEndpoints)
  }

  /** A missing router ID is the overlay address without its mask, when there is a mask. */
  function WithRouterID(n: Node): Node {
    var idx := IndexOf(n.overlayIP, '/');
    if n.routerID == "" && idx > 0 then n.(routerID := n.overlayIP[..idx]) else n
  }

  /** nodeEqual: it compares neither the private key, the token, the peer endpoints nor the policy. */
  predicate NodeEqual(a: Node, b: Node) {
    && a.id == b.id && a.publicKey == b.publicKey && a.listenPort == b.listenPort && a.overlayIP == b.overlayIP
    && a.asn == b.asn && a.routerID == b.routerID
    && a.endpoints == b.endpoints && a.cidrs == b.cidrs
  }

  datatype Outcome = BadRequest | Unauthorized | Registered(saved: Node)

  /** `authed` is the verdict of the login check, asked only for requests without a token. */
  function Verdict(t: NodeTable, req: Request, authed: bool): Outcome {
    var known := req.id in t.nodes;
    if req.id == "" then BadRequest
    else if Token(req) == "" && !authed then Unauthorized
    else if Token(req) != "" && !(known && t.nodes[req.id].provisionToken == Token(req)) then Unauthorized
    else
      var n := WithRouterID(if known then Merge(Submitted(req), t.nodes[req.id]) else Submitted(req));
      if known && !req.force && NodeEqual(t.nodes[req.id], n) then Registered(t.nodes[req.id])
      else Registered(Upsert(t, n).nodes[n.id])
  }

  /** The token a request goes by. */
  predicate GoesByToken(req: Request, token: string) {
    token != "" && (req.provisionToken == token || (req.provisionToken == "" && req.headerToken == token))
  }

  /**
    Who may register: with a token, in the body or else in the header, the node it was issued to; without one, whoever
    passes the login check. A missing ID is a bad request, anything else is refused as unauthorized.
   */
  lemma AcceptedIff(t: NodeTable, req: Request, authed: bool)
    ensures Verdict(t, req, authed).BadRequest? <==> req.id == ""
    ensures Verdict(t, req, authed).Registered? <==>
              && req.id != ""
              && (req.provisionToken == "" && req.headerToken == "" ==> authed)
              && forall token :: GoesByToken(req, token) ==>
                   req.id in t.nodes && t.nodes[req.id].provisionToken == token
    ensures !Verdict(t, req, authed).Registered? ==> Register(t, req, authed) == t
  {
    var token := if req.provisionToken != "" then req.provisionToken else req.headerToken;
    assert token != "" ==> GoesByToken(req, token);
    assert forall other :: GoesByToken(req, other) ==> other == token;
  }

  function Register(t: NodeTable, req: Request, authed: bool): NodeTable {
    if !Verdict(t, req, authed).Registered? then t
    else
      var known := req.id in t.nodes;
      var n := WithRouterID(if known then Merge(Submitted(req), t.nodes[req.id]) else Submitted(req));
      if known && !req.force && NodeEqual(t.nodes[req.id], n) then t else Upsert(t, n)
  }

  /** Agents without a key of their own submit the stub, which counts as none. */
  predicate SubmitsKey(req: Request) {
    req.publicKey != "" && req.publicKey != "stub-public-key"
  }

  /** A record that holds what the request submitted, peer endpoints aside, and has its router ID filled in. */
  ghost predicate Absorbs(n: Node, req: Request) {
    && n.id == req.id
    && (SubmitsKey(req) ==> n.publicKey == req.publicKey)
    && (req.listenPort != 0 ==> n.listenPort == req.listenPort)
    && (req.asn != 0 ==> n.asn == req.asn)
    && (req.endpoints != [] ==> n.endpoints == req.endpoints)
    && (req.cidrs != [] ==> n.cidrs == req.cidrs)
    && (req.overlayIP != "" ==> n.overlayIP != "")
    && (req.routerID != "" ==> n.routerID == req.routerID)
    && (n.routerID == "" ==> '/' !in n.overlayIP || n.overlayIP[0] == '/')
  }

  lemma RouterIDKept(n: Node)
    ensures WithRouterID(n) == n.(routerID := WithRouterID(n).routerID)
    ensures n.routerID != "" ==> WithRouterID(n).routerID == n.routerID
    ensures WithRouterID(n).routerID == "" ==> IndexOf(n.overlayIP, '/') <= 0
  {
  }

  lemma CandidateAbsorbs(req: Request, base: Node)
    ensures Absorbs(WithRouterID(Submitted(req)), req)
    ensures Absorbs(WithRouterID(Merge(Submitted(req), base)), req)
  {
    RouterIDKept(Submitted(req));
    RouterIDKept(Merge(Submitted(req), base));
  }

  lemma AbsorbedChangesNothing(n: Node, req: Request)
    requires Absorbs(n, req)
    ensures NodeEqual(n, WithRouterID(Merge(Submitted(req), n)))
  {
    var m := Merge(Submitted(req), n);
    assert m.overlayIP == n.overlayIP && m.routerID == n.routerID;
  }

  // ---- What is stored ----

  /** An accepted request that does not leave the record of a known node as it is. */
  predicate Rebuilds(t: NodeTable, req: Request, authed: bool) {
    && Verdict(t, req, authed).Registered? && req.id in t.nodes
    && (req.force || !NodeEqual(t.nodes[req.id], WithRouterID(Merge(Submitted(req), t.nodes[req.id]))))
  }

  lemma RecordStored(t: NodeTable, req: Request, authed: bool)
    requires Verdict(t, req, authed).Registered?
    ensures var known := req.id in t.nodes;
            var n := WithRouterID(if known then Merge(Submitted(req), t.nodes[req.id]) else Submitted(req));
            var t' := Register(t, req, authed);
            && req.id in t'.nodes && Verdict(t, req, authed).saved == t'.nodes[req.id]
            && if known && !Rebuilds(t, req, authed) then
                 t' == t && NodeEqual(t.nodes[req.id], n)
               else
                 var v := t'.nodes[req.id].version; t'.nodes[req.id] == n.(version := v, configVersion := v)
  {
  }

  /**
    The record in the table after an accepted request holds what the request submitted, except that an overlay address
    stays once it is set, and that new peer endpoints are dropped when nothing else makes the record be rebuilt.
   */
  lemma RegisteredAbsorbs(t: NodeTable, req: Request, authed: bool)
    requires Verdict(t, req, authed).Registered?
    ensures var t', known := Register(t, req, authed), req.id in t.nodes;
            && req.id in t'.nodes && Absorbs(t'.nodes[req.id], req)
            && t'.nodes[req.id].overlayIP ==
                 (if known && t.nodes[req.id].overlayIP != "" then t.nodes[req.id].overlayIP else req.overlayIP)
            && (req.peerEndpoints != map[] ==>
                 (t'.nodes[req.id].peerEndpoints == req.peerEndpoints <==>
                  !known || Rebuilds(t, req, authed) || t.nodes[req.id].peerEndpoints == req.peerEndpoints))
  {
    RecordStored(t, req, authed);
    CandidateAbsorbs(req, if req.id in t.nodes then t.nodes[req.id] else ZERO_NODE);
    RouterIDKept(if req.id in t.nodes then Merge(Submitted(req), t.nodes[req.id]) else Submitted(req));
  }

  /** The record's router ID is its overlay address without the mask; "" when there is none to cut off. */
  ghost predicate DerivedRouterID(n: Node) {
    if '/' in n.overlayIP && n.overlayIP[0] != '/' then
      n.routerID != "" && '/' !in n.routerID && n.routerID + "/" <= n.overlayIP
    else n.routerID == ""
  }

  lemma WithRouterIDDerives(n: Node)
    requires n.routerID == ""
    ensures DerivedRouterID(WithRouterID(n))
  {
    if '/' in n.overlayIP && n.overlayIP[0] != '/' {
      var idx := IndexOf(n.overlayIP, '/');
      assert n.overlayIP[..idx] + "/" == n.overlayIP[..idx + 1];
    }
  }

  /**
    What a request of a known node does not submit stays as it was; its private key, token and overlay address stay
    in any case. A router ID that nobody gave is derived from the overlay address.
   */
  lemma RegisteredKeeps(t: NodeTable, req: Request, authed: bool)
    requires Verdict(t, req, authed).Registered? && req.id in t.nodes
    ensures var stored := t.nodes[req.id];
            var t' := Register(t, req, authed);
            && req.id in t'.nodes
            && var n := t'.nodes[req.id];
               && n.privateKey == stored.privateKey && n.provisionToken == stored.provisionToken
               && (stored.overlayIP != "" ==> n.overlayIP == stored.overlayIP)
               && (!SubmitsKey(req) ==> n.publicKey == stored.publicKey)
               && (req.listenPort == 0 ==> n.listenPort == stored.listenPort)
               && (req.asn == 0 ==> n.asn == stored.asn)
               && (req.endpoints == [] ==> n.endpoints == stored.endpoints)
               && (req.cidrs == [] ==> n.cidrs == stored.cidrs)
               && (req.peerEndpoints == map[] ==> n.peerEndpoints == stored.peerEndpoints)
               && (req.routerID == "" && stored.routerID != "" ==> n.routerID == stored.routerID)
               && (req.routerID == "" && stored.routerID == "" ==> DerivedRouterID(n))
  {
    RecordStored(t, req, authed);
    var m := Merge(Submitted(req), t.nodes[req.id]);
    RouterIDKept(m);
    if m.routerID == "" {
      WithRouterIDDerives(m);
    }
  }

  /** A node that was not known is stored with what it submits and nothing else. */
  lemma RegisteredNew(t: NodeTable, req: Request, authed: bool)
    requires Verdict(t, req, authed).Registered? && req.id !in t.nodes
    ensures var t' := Register(t, req, authed);
            && req.id in t'.nodes
            && var n := t'.nodes[req.id];
               && n.publicKey == (if SubmitsKey(req) then req.publicKey else "") && n.privateKey == ""
               && n.listenPort == req.listenPort && n.asn == req.asn && n.overlayIP == req.overlayIP
               && n.endpoints == req.endpoints && n.cidrs == req.cidrs && n.peerEndpoints == req.peerEndpoints
               && n.provisionToken == "" && n.policyRules == [] && !n.defaultRoute
               && (req.routerID != "" ==> n.routerID == req.routerID)
               && (req.routerID == "" ==> DerivedRouterID(n))
  {
    RecordStored(t, req, authed);
    RouterIDKept(Submitted(req));
    if req.routerID == "" {
      WithRouterIDDerives(Submitted(req));
    }
  }

  /** The request has a new value for a field that is compared, or the record lacks a router ID it could have. */
  predicate BringsNews(stored: Node, req: Request) {
    || (SubmitsKey(req) && req.publicKey != stored.publicKey)
    || (req.listenPort != 0 && req.listenPort != stored.listenPort)
    || (req.asn != 0 && req.asn != stored.asn)
    || (req.endpoints != [] && req.endpoints != stored.endpoints)
    || (req.cidrs != [] && req.cidrs != stored.cidrs)
    || (req.overlayIP != "" && stored.overlayIP == "")
    || (req.routerID != "" && req.routerID != stored.routerID)
    || (req.routerID == "" && stored.routerID == "" && '/' in stored.overlayIP && stored.overlayIP[0] != '/')
  }

  /** An accepted request rebuilds a known record exactly when it is forced or brings news. */
  lemma RebuildsIff(t: NodeTable, req: Request, authed: bool)
    requires Verdict(t, req, authed).Registered? && req.id in t.nodes && t.nodes[req.id].id == req.id
    ensures Rebuilds(t, req, authed) <==> req.force || BringsNews(t.nodes[req.id], req)
  {
    RouterIDKept(Merge(Submitted(req), t.nodes[req.id]));
  }

  /** After an accepted request its node is known, keeps the token, and merging the request again changes nothing. */
  lemma RegisteredIsStable(t: NodeTable, req: Request, authed: bool)
    requires Verdict(t, req, authed).Registered?
    ensures var once := Register(t, req, authed);
            && req.id in once.nodes
            && (Token(req) != "" ==> once.nodes[req.id].provisionToken == Token(req))
            && NodeEqual(once.nodes[req.id], WithRouterID(Merge(Submitted(req), once.nodes[req.id])))
  {
    RegisteredAbsorbs(t, req, authed);
    AbsorbedChangesNothing(Register(t, req, authed).nodes[req.id], req);
  }

  /**
    For any node table and any accepted request: registering twice is registering once,
    in the nodes and in their version counters, exactly when the request is not forced.
   */
  lemma RegisterIdempotentIffNotForced(t: NodeTable, req: Request, authed: bool)
    requires Verdict(t, req, authed).Registered?
    ensures var once := Register(t, req, authed);
            && Verdict(once, req, authed).Registered?
            && (Register(once, req, authed) == once <==> !req.force)
  {
    RegisteredIsStable(t, req, authed);
    var once := Register(t, req, authed);
    if req.force {
      assert Counter(Register(once, req, authed), req.id) == Counter(once, req.id) + 1;
    }
  }

  /** A request that names a node and its token, and submits nothing else. */
  function Bare(id: string, token: string): Request {
    Request(id, "", [], [], 0, "", 0, "", map[], token, "", false)
  }

  /** A request that submits nothing but new peer endpoints is accepted and dropped. */
  lemma EndpointsDropped(t: NodeTable, req: Request, authed: bool, id: string)
    requires id in t.nodes && t.nodes[id].id == id && t.nodes[id].routerID != ""
    requires req == Bare(id, t.nodes[id].provisionToken).(peerEndpoints := req.peerEndpoints)
    requires Verdict(t, req, authed).Registered? && req.peerEndpoints != t.nodes[id].peerEndpoints
    ensures Register(t, req, authed) == t && t.nodes[id].peerEndpoints != req.peerEndpoints
  {
    var m := Merge(Submitted(req), t.nodes[id]);
    RouterIDKept(m);
    assert NodeEqual(t.nodes[id], WithRouterID(m));
  }

  /**
    What is not submitted stays: a bare request of a known node changes nothing at all,
    except that a missing router ID is derived from an overlay address with a mask.
   */
  lemma BareRequestChangesNothingIff(t: NodeTable, id: string, token: string, authed: bool)
    requires Verdict(t, Bare(id, token), authed).Registered? && id in t.nodes && t.nodes[id].id == id
    ensures Register(t, Bare(id, token), authed) == t
       <==> t.nodes[id].routerID != "" || IndexOf(t.nodes[id].overlayIP, '/') <= 0
  {
    var stored := t.nodes[id];
    var m := Merge(Submitted(Bare(id, token)), stored);
    assert NodeEqual(stored, m);
    if stored.routerID == "" && IndexOf(stored.overlayIP, '/') > 0 {
      var t' := Register(t, Bare(id, token), authed);
      assert t'.nodes[id].routerID != "";
    }
  }

  /** The operator's part of a record. */
  datatype Policy = Policy(
    egressPeerID: string,
    rules: seq<PolicyRule>,
    defaultRoute: bool,
    bypassCIDRs: seq<string>,
    defaultRouteNextHop: string)

  const NO_POLICY := Policy("", [], false, [], "")

  function PolicyOf(n: Node): Policy {
    Policy(n.egressPeerID, n.policyRules, n.defaultRoute, n.bypassCIDRs, n.defaultRouteNextHop)
  }

  /**
    Registration rebuilds a changed record without its policy: the policy of a known node survives an
    accepted request exactly when there was none, or the request neither changes nor forces anything.
   */
  lemma PolicySurvivesIff(t: NodeTable, req: Request, authed: bool)
    requires Verdict(t, req, authed).Registered? && req.id in t.nodes
    ensures var stored := t.nodes[req.id];
            PolicyOf(Register(t, req, authed).nodes[req.id]) == PolicyOf(stored) <==>
              PolicyOf(stored) == NO_POLICY || !Rebuilds(t, req, authed)
  {
    RegisteredPolicy(t, req, authed);
  }

  lemma RegisteredPolicy(t: NodeTable, req: Request, authed: bool)
    requires req.id in t.nodes
    ensures var t' := Register(t, req, authed);
            && req.id in t'.nodes
            && PolicyOf(t'.nodes[req.id]) == (if Rebuilds(t, req, authed) then NO_POLICY else PolicyOf(t.nodes[req.id]))
            && forall id :: id in t.nodes && id != req.id ==> id in t'.nodes && t'.nodes[id] == t.nodes[id]
  {
    var m := Merge(Submitted(req), t.nodes[req.id]);
    RouterIDKept(m);
    assert PolicyOf(m) == NO_POLICY;
  }

  // ---- prepare ----

  const FIRST_OCTET := 1
  const LAST_OCTET := 253
  const FALLBACK_OVERLAY := "10.10.250.1/32"

  function OctetOf(n: Node): Option<int> {
    ScanThird(StripMask(n.overlayIP))
  }

  predicate OctetUsed(nodes: map<string, Node>, i: int) {
    exists id :: id in nodes && OctetOf(nodes[id]) == Some(i)
  }

  function OverlayFor(i: nat): string {
    OVERLAY_PREFIX + Dec(i) + ".1/32"
  }

  /** The least free third octet, or the fallback address when all are taken. */
  ghost predicate IsAssignment(nodes: map<string, Node>, overlay: string) {
    || (exists i: nat :: FIRST_OCTET <= i <= LAST_OCTET && !OctetUsed(nodes, i) && overlay == OverlayFor(i)
                         && forall j :: FIRST_OCTET <= j < i ==> OctetUsed(nodes, j))
    || (overlay == FALLBACK_OVERLAY && forall j :: FIRST_OCTET <= j <= LAST_OCTET ==> OctetUsed(nodes, j))
  }

  /** A listing of the table in some order: maps are read in any order. */
  ghost predicate IsListing(s: seq<Node>, nodes: map<string, Node>) {
    && (forall i :: 0 <= i < |s| ==> s[i].id in nodes && nodes[s[i].id] == s[i])
    && (forall i, j :: 0 <= i < j < |s| ==> s[i].id != s[j].id)
    && (forall id :: id in nodes ==> nodes[id] in s)
  }

  function OctetList(list: seq<Node>): seq<Option<int>> {
    seq(|list|, k requires 0 <= k < |list| => OctetOf(list[k]))
  }

  function Somes(os: seq<Option<int>>): set<int> {
    if os == [] then {}
    else
      match Last(os)
      case Some(third) => Somes(Init(os)) + {third}
      case None => Somes(Init(os))
  }

  lemma {:induction false} SomesMembers(os: seq<Option<int>>, i: int)
    ensures i in Somes(os) <==> Some(i) in os
  {
    if os != [] {
      SomesMembers(Init(os), i);
      assert os == Init(os) + [Last(os)];
    }
  }

  method UsedOctets(list: seq<Node>) returns (used: set<int>)
    ensures used == Somes(OctetList(list))
  {
    used := {};
    ghost var os := OctetList(list);
    for k := 0 to |list|
      invariant used == Somes(os[..k])
    {
      assert Init(os[..k + 1]) == os[..k];
      match OctetOf(list[k]) {
        case Some(third) => used := used + {third};
        case None =>
      }
    }
    assert os[..|list|] == os;
  }

  lemma ListedOctet(list: seq<Node>, nodes: map<string, Node>, i: int)
    requires IsListing(list, nodes)
    ensures Some(i) in OctetList(list) <==> OctetUsed(nodes, i)
  {
    if Some(i) in OctetList(list) {
      var k :| 0 <= k < |list| && OctetList(list)[k] == Some(i);
      assert list[k].id in nodes && nodes[list[k].id] == list[k];
    }
    if id :| id in nodes && OctetOf(nodes[id]) == Some(i) {
      var k :| 0 <= k < |list| && list[k] == nodes[id];
      assert OctetList(list)[k] == Some(i);
    }
  }

  lemma ScanResult(list: seq<Node>, nodes: map<string, Node>, used: set<int>, i: nat)
    requires IsListing(list, nodes) && used == Somes(OctetList(list))
    requires FIRST_OCTET <= i <= LAST_OCTET + 1 && (i <= LAST_OCTET ==> i !in used)
    requires forall j :: FIRST_OCTET <= j < i ==> j in used
    ensures IsAssignment(nodes, if i <= LAST_OCTET then OverlayFor(i) else FALLBACK_OVERLAY)
  {
    forall j ensures j in used <==> OctetUsed(nodes, j) {
      SomesMembers(OctetList(list), j);
      ListedOctet(list, nodes, j);
    }
  }

  method FirstFree(used: set<int>) returns (i: nat)
    ensures FIRST_OCTET <= i <= LAST_OCTET + 1 && (i <= LAST_OCTET ==> i !in used)
    ensures forall j :: FIRST_OCTET <= j < i ==> j in used
  {
    for k := FIRST_OCTET to LAST_OCTET + 1
      invariant forall j :: FIRST_OCTET <= j < k ==> j in used
    {
      if k !in used {
        return k;
      }
    }
    i := LAST_OCTET + 1;
  }

  method AssignOverlay(list: seq<Node>, ghost nodes: map<string, Node>) returns (overlay: string)
    requires IsListing(list, nodes)
    ensures IsAssignment(nodes, overlay)
  {
    var used := UsedOctets(list);
    var i := FirstFree(used);
    ScanResult(list, nodes, used, i);
    overlay := if i <= LAST_OCTET then OverlayFor(i) else FALLBACK_OVERLAY;
  }

  lemma DigitsNoSlash(i: nat)
    ensures '/' !in Dec(i)
  {
    ValueOfDec(i);
  }

  lemma OctetOfOverlay(n: Node, i: nat)
    requires n.overlayIP == OverlayFor(i) && i < INT64_LIMIT
    ensures OctetOf(n) == Some(i)
  {
    var ip := OVERLAY_PREFIX + Dec(i) + ".1";
    DigitsNoSlash(i);
    assert n.overlayIP == ip + "/" + "32";
    StripMaskOf(ip, "32");
    assert ip == OVERLAY_PREFIX + Dec(i) + "." + "1";
    ScanThirdOfDec(i, "1");
  }

  lemma AssignmentUnique(nodes: map<string, Node>, a: string, b: string)
    requires IsAssignment(nodes, a) && IsAssignment(nodes, b)
    ensures a == b
  {
  }

  // ---- Pigeonhole ----

  /** Values 1 to i, each held by somebody, need i holders. */
  lemma {:induction false} Holders(held: map<string, Option<int>>, i: nat) returns (ids: set<string>)
    requires forall j :: 1 <= j <= i ==> Some(j) in held.Values
    ensures |ids| == i && ids <= held.Keys
    ensures forall id :: id in ids ==> held[id].Some? && held[id].value <= i
  {
    if i == 0 {
      ids := {};
    } else {
      ids := Holders(held, i - 1);
      assert Some(i) in held.Values;
      var id :| id in held && held[id] == Some(i);
      ids := ids + {id};
    }
  }

  lemma {:induction false} SubsetSize(a: set<string>, b: set<string>)
    requires a <= b
    ensures |a| <= |b|
    decreases b
  {
    if a != {} {
      var x :| x in a;
      SubsetSize(a - {x}, b - {x});
    }
  }

  lemma AllUsedMeansFull(nodes: map<string, Node>)
    requires forall j :: FIRST_OCTET <= j <= LAST_OCTET ==> OctetUsed(nodes, j)
    ensures |nodes| >= LAST_OCTET
  {
    var held := map id | id in nodes :: OctetOf(nodes[id]);
    forall j | 1 <= j <= LAST_OCTET ensures Some(j) in held.Values {
      assert OctetUsed(nodes, j);
      var id :| id in nodes && OctetOf(nodes[id]) == Some(j);
      assert id in held && held[id] == Some(j);
    }
    var ids := Holders(held, LAST_OCTET);
    assert held.Keys == nodes.Keys;
    SubsetSize(ids, nodes.Keys);
  }

  /** With at most 252 nodes some octet is free, so the fallback is never taken. */
  lemma FreeOctetExists(nodes: map<string, Node>, overlay: string) returns (i: nat)
    requires |nodes| < LAST_OCTET
    requires IsAssignment(nodes, overlay)
    ensures FIRST_OCTET <= i <= LAST_OCTET && !OctetUsed(nodes, i) && overlay == OverlayFor(i)
    ensures forall j :: FIRST_OCTET <= j < i ==> OctetUsed(nodes, j)
  {
    if forall j :: FIRST_OCTET <= j <= LAST_OCTET ==> OctetUsed(nodes, j) {
      AllUsedMeansFull(nodes);
      assert false;
    }
    i :| FIRST_OCTET <= i <= LAST_OCTET && !OctetUsed(nodes, i) && overlay == OverlayFor(i)
      && forall j :: FIRST_OCTET <= j < i ==> OctetUsed(nodes, j);
  }

  // ---- The table as a state machine ----

  function ProvisionToken(now: nat): string {
    "pt-" + Dec(now)
  }

  predicate Provisioned(t: NodeTable, id: string) {
    id in t.nodes && t.nodes[id].provisionToken != ""
  }

  function PreparedNode(id: string, publicKey: string, privateKey: string, overlay: string, now: nat): Node {
    ZERO_NODE.(id := id, publicKey := publicKey, privateKey := privateKey, overlayIP := overlay, listenPort := 8082,
               asn := 65000, routerID := StripMask(overlay), provisionToken := ProvisionToken(now))
  }

  /** The prepare handler, given the address `assignOverlay` found. A node with a token is left as it is. */
  function Prepare(
    t: NodeTable, id: string, publicKey: string, privateKey: string, overlay: string, now: nat): NodeTable
  {
    if id == "" || Provisioned(t, id) then t
    else Upsert(t, PreparedNode(id, publicKey, privateKey, overlay, now))
  }

  function UpdatePolicy(
    t: NodeTable, id: string, egress: string, rules: seq<PolicyRule>, defaultRoute: bool,
    bypass: seq<string>, nextHop: string): NodeTable
  {
    if id !in t.nodes then t
    else
      t.(nodes := t.nodes[id := t.nodes[id].(egressPeerID := egress, policyRules := rules, defaultRoute := defaultRoute,
                                             bypassCIDRs := bypass, defaultRouteNextHop := nextHop)])
  }

  datatype Event =
    | PrepareNode(id: string, publicKey: string, privateKey: string, overlay: string, now: nat)
    | RegisterNode(req: Request, authed: bool)
    | SetPolicy(id: string, egress: string, rules: seq<PolicyRule>, defaultRoute: bool, bypass: seq<string>,
                nextHop: string)

  function Step(t: NodeTable, e: Event): NodeTable {
    match e
    case PrepareNode(id, publicKey, privateKey, overlay, now) => Prepare(t, id, publicKey, privateKey, overlay, now)
    case RegisterNode(req, authed) => Register(t, req, authed)
    case SetPolicy(id, egress, rules, defaultRoute, bypass, nextHop) =>
      UpdatePolicy(t, id, egress, rules, defaultRoute, bypass, nextHop)
  }

  predicate Allocates(t: NodeTable, e: Event) {
    e.PrepareNode? && e.id != "" && !Provisioned(t, e.id)
  }

  function RunFrom(t: NodeTable, es: seq<Event>): NodeTable {
    if es == [] then t else Step(RunFrom(t, Init(es)), Last(es))
  }

  // ---- The policy over runs ----

  /** The event writes the record of `id` anew, without a policy. */
  predicate Resets(t: NodeTable, e: Event, id: string) {
    match e
    case PrepareNode(_, _, _, _, _) => e.id == id && Allocates(t, e)
    case RegisterNode(req, authed) => req.id == id && Rebuilds(t, req, authed)
    case SetPolicy(_, _, _, _, _, _) => false
  }

  predicate EverReset(t: NodeTable, es: seq<Event>, id: string) {
    es != [] && (EverReset(t, Init(es), id) || Resets(RunFrom(t, Init(es)), Last(es), id))
  }

  lemma StepPolicy(t: NodeTable, e: Event, id: string)
    requires id in t.nodes && !(e.SetPolicy? && e.id == id)
    ensures var t' := Step(t, e);
            && id in t'.nodes
            && PolicyOf(t'.nodes[id]) == if Resets(t, e, id) then NO_POLICY else PolicyOf(t.nodes[id])
  {
    if e.RegisterNode? {
      if e.req.id in t.nodes {
        RegisteredPolicy(t, e.req, e.authed);
      }
    }
  }

  lemma {:induction false} PolicyAfterRun(t: NodeTable, es: seq<Event>, id: string)
    requires id in t.nodes
    requires forall e :: e in es ==> !(e.SetPolicy? && e.id == id)
    ensures var t' := RunFrom(t, es);
            && id in t'.nodes
            && PolicyOf(t'.nodes[id]) == if EverReset(t, es, id) then NO_POLICY else PolicyOf(t.nodes[id])
  {
    if es != [] {
      assert es == Init(es) + [Last(es)];
      PolicyAfterRun(t, Init(es), id);
      StepPolicy(RunFrom(t, Init(es)), Last(es), id);
    }
  }

  function PolicySet(e: Event): Policy
    requires e.SetPolicy?
  {
    Policy(e.egress, e.rules, e.defaultRoute, e.bypass, e.nextHop)
  }

  /**
    What the operator sets for a known node holds through any run up to the next policy update of that node
    if and only if no accepted registration rebuilt the record and no prepare readdressed it, or it was no policy.
   */
  lemma PolicyHoldsIffNeverReset(t: NodeTable, set': Event, es: seq<Event>)
    requires set'.SetPolicy? && set'.id in t.nodes
    requires forall e :: e in es ==> !(e.SetPolicy? && e.id == set'.id)
    ensures var t1 := Step(t, set');
            var end := RunFrom(t1, es);
            && set'.id in end.nodes
            && (PolicyOf(end.nodes[set'.id]) == PolicySet(set') <==>
                PolicySet(set') == NO_POLICY || !EverReset(t1, es, set'.id))
  {
    PolicyAfterRun(Step(t, set'), es, set'.id);
  }

  /** The shortest such loss: an operator sets a rule, and the node registers again with a new endpoint. */
  lemma NewEndpointLosesPolicy(t: NodeTable, id: string, pr: PolicyRule, endpoint: string)
    requires id != "" && Provisioned(t, id) && t.nodes[id].id == id && t.nodes[id].endpoints != [endpoint]
    ensures var req := Bare(id, t.nodes[id].provisionToken).(endpoints := [endpoint]);
            var end := Step(Step(t, SetPolicy(id, "", [pr], false, [], "")), RegisterNode(req, false));
            id in end.nodes && end.nodes[id].endpoints == [endpoint] && end.nodes[id].policyRules == []
  {
    var req := Bare(id, t.nodes[id].provisionToken).(endpoints := [endpoint]);
    var t1 := Step(t, SetPolicy(id, "", [pr], false, [], ""));
    assert t1.nodes[id].provisionToken == req.provisionToken;
    assert Verdict(t1, req, false).Registered?;
    RegisteredPolicy(t1, req, false);
    RegisteredAbsorbs(t1, req, false);
  }

  // ---- Runs the allocator can produce ----

  /** A prepare that stores a record stores the address the allocator gives for the table it finds. */
  ghost predicate Possible(t: NodeTable, e: Event) {
    Allocates(t, e) ==> IsAssignment(t.nodes, e.overlay)
  }

  ghost predicate PossibleRun(t: NodeTable, es: seq<Event>) {
    es == [] || (PossibleRun(t, Init(es)) && Possible(RunFrom(t, Init(es)), Last(es)))
  }

  lemma PossibleMore(t: NodeTable, es: seq<Event>, e: Event)
    requires PossibleRun(t, es) && Possible(RunFrom(t, es), e)
    ensures PossibleRun(t, es + [e]) && RunFrom(t, es + [e]) == Step(RunFrom(t, es), e)
  {
    assert Init(es + [e]) == es;
  }

  /** What an allocating prepare stores. */
  lemma PreparedRecord(t: NodeTable, e: Event)
    requires Allocates(t, e) && Possible(t, e)
    ensures var t' := Step(t, e);
            && e.id in t'.nodes
            && var n := t'.nodes[e.id];
               && n.id == e.id && n.publicKey == e.publicKey && n.privateKey == e.privateKey
               && n.overlayIP == e.overlay && n.listenPort == 8082 && n.asn == 65000
               && n.overlayIP == n.routerID + "/32" && '/' !in n.routerID
               && n.provisionToken == "pt-" + Dec(e.now)
               && n.endpoints == [] && n.cidrs == [] && n.peerEndpoints == map[] && PolicyOf(n) == NO_POLICY
  {
    if i: nat :| FIRST_OCTET <= i <= LAST_OCTET && e.overlay == OverlayFor(i) {
      var ip := OVERLAY_PREFIX + Dec(i) + ".1";
      DigitsNoSlash(i);
      assert e.overlay == ip + "/32" == ip + "/" + "32";
      StripMaskOf(ip, "32");
    } else {
      assert e.overlay == "10.10.250.1" + "/" + "32" == "10.10.250.1" + "/32";
      StripMaskOf("10.10.250.1", "32");
    }
  }

  // ---- Keys over runs ----

  /** The key that an accepted request of the node submits. */
  function KeyGiven(t: NodeTable, e: Event, id: string): Option<string> {
    if e.RegisterNode? && e.req.id == id && Verdict(t, e.req, e.authed).Registered? && SubmitsKey(e.req) then
      Some(e.req.publicKey)
    else None
  }

  /** The key last given in a run, or the one before it. */
  function LastKey(t: NodeTable, es: seq<Event>, id: string, initial: string): string {
    if es == [] then initial
    else
      match KeyGiven(RunFrom(t, Init(es)), Last(es), id)
      case Some(key) => key
      case None => LastKey(t, Init(es), id, initial)
  }

  lemma StepKeepsKeys(t: NodeTable, e: Event, id: string)
    requires Provisioned(t, id)
    ensures var t' := Step(t, e);
            && Provisioned(t', id) && t'.nodes[id].privateKey == t.nodes[id].privateKey
            && t'.nodes[id].publicKey ==
                 match KeyGiven(t, e, id) case Some(key) => key case None => t.nodes[id].publicKey
  {
    if e.RegisterNode? && Verdict(t, e.req, e.authed).Registered? && e.req.id == id {
      RegisteredKeeps(t, e.req, e.authed);
      RegisteredAbsorbs(t, e.req, e.authed);
    }
  }

  /**
    A provisioned node keeps its private key through any run, and its public key is the
    one that an accepted registration of it submitted last, or else the one it had.
   */
  lemma {:induction false} KeysAfterRun(t: NodeTable, es: seq<Event>, id: string)
    requires Provisioned(t, id)
    ensures var t' := RunFrom(t, es);
            && Provisioned(t', id) && t'.nodes[id].privateKey == t.nodes[id].privateKey
            && t'.nodes[id].publicKey == LastKey(t, es, id, t.nodes[id].publicKey)
  {
    if es != [] {
      KeysAfterRun(t, Init(es), id);
      StepKeepsKeys(RunFrom(t, Init(es)), Last(es), id);
    }
  }

  // ---- Who gets into the table ----

  /** A prepare of the node, or a login and a request for it without a token. */
  predicate Admits(e: Event, id: string) {
    match e
    case PrepareNode(_, _, _, _, _) => id != "" && e.id == id
    case RegisterNode(req, authed) =>
      id != "" && req.id == id && authed && req.provisionToken == "" && req.headerToken == ""
    case SetPolicy(_, _, _, _, _, _) => false
  }

  lemma StepKnows(t: NodeTable, e: Event, id: string)
    ensures id in Step(t, e).nodes <==> id in t.nodes || Admits(e, id)
  {
    if e.RegisterNode? {
      AcceptedIff(t, e.req, e.authed);
      if Verdict(t, e.req, e.authed).Registered? {
        RecordStored(t, e.req, e.authed);
      }
      assert e.req.provisionToken != "" ==> GoesByToken(e.req, e.req.provisionToken);
      assert e.req.provisionToken == "" && e.req.headerToken != "" ==> GoesByToken(e.req, e.req.headerToken);
    }
  }

  /** A node is in the table after a run if and only if it was before, was prepared, or was registered after a login. */
  lemma {:induction false} KnownIffAdmitted(t: NodeTable, es: seq<Event>, id: string)
    ensures id in RunFrom(t, es).nodes <==> id in t.nodes || exists e :: e in es && Admits(e, id)
  {
    if es != [] {
      assert es == Init(es) + [Last(es)];
      KnownIffAdmitted(t, Init(es), id);
      StepKnows(RunFrom(t, Init(es)), Last(es), id);
    }
  }

  // ---- Version counters ----

  /** The event stores a record of the node. */
  predicate Stores(t: NodeTable, e: Event, id: string) {
    match e
    case PrepareNode(_, _, _, _, _) => e.id == id && Allocates(t, e)
    case RegisterNode(req, authed) =>
      req.id == id && Verdict(t, req, authed).Registered? && (req.id !in t.nodes || Rebuilds(t, req, authed))
    case SetPolicy(_, _, _, _, _, _) => false
  }

  function StoreCount(t: NodeTable, es: seq<Event>, id: string): nat {
    if es == [] then 0
    else StoreCount(t, Init(es), id) + if Stores(RunFrom(t, Init(es)), Last(es), id) then 1 else 0
  }

  /** The version counter of a node is the number of times a record of it was stored. */
  lemma {:induction false} CounterCountsStores(t: NodeTable, es: seq<Event>, id: string)
    ensures Counter(RunFrom(t, es), id) == Counter(t, id) + StoreCount(t, es, id)
  {
    if es != [] {
      CounterCountsStores(t, Init(es), id);
    }
  }

  /** A policy update changes the five policy fields of its node and nothing else in the table. */
  lemma UpdateChangesPolicyOnly(t: NodeTable, e: Event)
    requires e.SetPolicy? && e.id in t.nodes
    ensures var t' := Step(t, e);
            && t'.version == t.version && t'.nodes.Keys == t.nodes.Keys
            && PolicyOf(t'.nodes[e.id]) == PolicySet(e)
            && (forall id :: id in t.nodes && id != e.id ==> t'.nodes[id] == t.nodes[id])
            && var n, n' := t.nodes[e.id], t'.nodes[e.id];
               && n'.id == n.id && n'.publicKey == n.publicKey && n'.privateKey == n.privateKey
               && n'.endpoints == n.endpoints && n'.cidrs == n.cidrs && n'.listenPort == n.listenPort
               && n'.overlayIP == n.overlayIP && n'.asn == n.asn && n'.routerID == n.routerID
               && n'.provisionToken == n.provisionToken && n'.peerEndpoints == n.peerEndpoints
               && n'.version == n.version && n'.configVersion == n.configVersion
  {
  }

  // ---- Invariants ----

  ghost predicate RecordOk(t: NodeTable, id: string) {
    && id in t.nodes && id in t.version && t.version[id] >= 1
    && t.nodes[id].id == id
    && t.nodes[id].version == t.nodes[id].configVersion == "v0.0." + Dec(t.version[id])
    && (t.nodes[id].provisionToken != "" ==> t.nodes[id].overlayIP != "")
  }

  /** Every record matches its counter, and a token comes with an overlay address. */
  ghost predicate TableOk(t: NodeTable) {
    && (forall id :: id in t.nodes ==> RecordOk(t, id))
    && (forall id :: id in t.version ==> id in t.nodes)
  }

  ghost predicate SameIdentity(t: NodeTable, t': NodeTable, id: string) {
    && id in t.nodes && id in t'.nodes
    && t'.nodes[id].provisionToken == t.nodes[id].provisionToken
    && t'.nodes[id].overlayIP == t.nodes[id].overlayIP
  }

  /** What one step may do to the table: counters go up, identities stay. */
  ghost predicate Advances(t: NodeTable, t': NodeTable) {
    && (forall id :: Counter(t, id) <= Counter(t', id))
    && (forall id :: Provisioned(t, id) ==> SameIdentity(t, t', id))
  }

  lemma UpsertAdvances(t: NodeTable, n: Node)
    requires TableOk(t)
    requires n.provisionToken != "" ==> n.overlayIP != ""
    requires Provisioned(t, n.id) ==>
               n.provisionToken == t.nodes[n.id].provisionToken && n.overlayIP == t.nodes[n.id].overlayIP
    ensures TableOk(Upsert(t, n)) && Advances(t, Upsert(t, n))
  {
    var t' := Upsert(t, n);
    forall id | id in t'.nodes ensures RecordOk(t', id) {
      if id != n.id {
        assert RecordOk(t, id);
      }
    }
  }

  lemma RegisterAdvances(t: NodeTable, req: Request, authed: bool)
    requires TableOk(t)
    ensures TableOk(Register(t, req, authed)) && Advances(t, Register(t, req, authed))
  {
    if Verdict(t, req, authed).Registered? {
      var known := req.id in t.nodes;
      var n := WithRouterID(if known then Merge(Submitted(req), t.nodes[req.id]) else Submitted(req));
      if known {
        assert RecordOk(t, req.id);
      }
      UpsertAdvances(t, n);
    }
  }

  lemma PrepareAdvances(t: NodeTable, id: string, publicKey: string, privateKey: string, overlay: string, now: nat)
    requires TableOk(t)
    requires id != "" && !Provisioned(t, id) ==> IsAssignment(t.nodes, overlay)
    ensures TableOk(Prepare(t, id, publicKey, privateKey, overlay, now))
    ensures Advances(t, Prepare(t, id, publicKey, privateKey, overlay, now))
  {
    if id != "" && !Provisioned(t, id) {
      assert overlay != "";
      UpsertAdvances(t, PreparedNode(id, publicKey, privateKey, overlay, now));
    }
  }

  lemma PolicyAdvances(t: NodeTable, e: Event)
    requires TableOk(t) && e.SetPolicy?
    ensures TableOk(Step(t, e)) && Advances(t, Step(t, e))
  {
    var t' := Step(t, e);
    forall id | id in t'.nodes ensures RecordOk(t', id) {
      assert RecordOk(t, id);
    }
  }

  lemma StepAdvances(t: NodeTable, e: Event)
    requires TableOk(t) && Possible(t, e)
    ensures TableOk(Step(t, e)) && Advances(t, Step(t, e))
  {
    match e {
      case PrepareNode(id, publicKey, privateKey, overlay, now) =>
        PrepareAdvances(t, id, publicKey, privateKey, overlay, now);
      case RegisterNode(req, authed) => RegisterAdvances(t, req, authed);
      case SetPolicy(_, _, _, _, _, _) => PolicyAdvances(t, e);
    }
  }

  /**
    Over every run of prepare, register and policy updates: a token always comes with an overlay
    address, neither ever changes afterwards, version strings match counters that never decrease.
   */
  lemma {:induction false} IdentityIsSticky(t: NodeTable, es: seq<Event>)
    requires TableOk(t) && PossibleRun(t, es)
    ensures TableOk(RunFrom(t, es)) && Advances(t, RunFrom(t, es))
  {
    if es != [] {
      IdentityIsSticky(t, Init(es));
      var mid, end := RunFrom(t, Init(es)), RunFrom(t, es);
      StepAdvances(mid, Last(es));
      forall id ensures Counter(t, id) <= Counter(end, id) {
        assert Counter(t, id) <= Counter(mid, id) <= Counter(end, id);
      }
      forall id | Provisioned(t, id) ensures SameIdentity(t, end, id) {
        assert SameIdentity(t, mid, id);
        assert Provisioned(mid, id);
        assert SameIdentity(mid, end, id);
      }
    }
  }

  /** No record is ever stored under the empty ID. */
  lemma {:induction false} NoEmptyID(es: seq<Event>)
    ensures "" !in RunFrom(EMPTY, es).nodes
  {
    if es != [] {
      NoEmptyID(Init(es));
      StepKeepsNoEmptyID(RunFrom(EMPTY, Init(es)), Last(es));
    }
  }

  lemma StepKeepsNoEmptyID(t: NodeTable, e: Event)
    requires "" !in t.nodes
    ensures "" !in Step(t, e).nodes
  {
  }

  // ---- Overlay addresses of provisioned nodes ----

  ghost predicate UniqueOverlays(t: NodeTable) {
    forall a, b :: Provisioned(t, a) && Provisioned(t, b) && a != b ==> t.nodes[a].overlayIP != t.nodes[b].overlayIP
  }

  ghost predicate FreeOctet(t: NodeTable) {
    exists i :: FIRST_OCTET <= i <= LAST_OCTET && !OctetUsed(t.nodes, i)
  }

  lemma FreshOverlay(nodes: map<string, Node>, i: nat, other: string)
    requires i < INT64_LIMIT && !OctetUsed(nodes, i) && other in nodes
    ensures nodes[other].overlayIP != OverlayFor(i)
  {
    if nodes[other].overlayIP == OverlayFor(i) {
      OctetOfOverlay(nodes[other], i);
    }
  }

  lemma PreparedOverlay(t: NodeTable, e: Event)
    requires Allocates(t, e)
    ensures var t' := Step(t, e);
            && Provisioned(t', e.id) && t'.nodes[e.id].overlayIP == e.overlay
            && t'.nodes.Keys == t.nodes.Keys + {e.id}
            && forall a :: a != e.id ==>
                 && (Provisioned(t', a) <==> Provisioned(t, a))
                 && (a in t.nodes ==> a in t'.nodes && t'.nodes[a] == t.nodes[a])
  {
    assert ProvisionToken(e.now) != "";
  }

  lemma PrepareKeepsUniqueUnlessTaken(t: NodeTable, e: Event)
    requires UniqueOverlays(t)
    requires Allocates(t, e)
    ensures UniqueOverlays(Step(t, e)) <==> forall a :: Provisioned(t, a) ==> t.nodes[a].overlayIP != e.overlay
  {
    var t' := Step(t, e);
    PreparedOverlay(t, e);
    if a :| Provisioned(t, a) && t.nodes[a].overlayIP == e.overlay {
      assert Provisioned(t', a) && Provisioned(t', e.id) && a != e.id;
    }
  }

  /**
    An allocating prepare keeps the addresses of provisioned nodes distinct exactly when
    an octet is free or no provisioned node holds the fallback address already.
   */
  lemma PrepareKeepsUniqueIff(t: NodeTable, e: Event)
    requires UniqueOverlays(t) && Possible(t, e)
    requires Allocates(t, e)
    ensures UniqueOverlays(Step(t, e)) <==>
              FreeOctet(t) || forall a :: Provisioned(t, a) ==> t.nodes[a].overlayIP != FALLBACK_OVERLAY
  {
    PrepareKeepsUniqueUnlessTaken(t, e);
    if FreeOctet(t) {
      var i: nat :| FIRST_OCTET <= i <= LAST_OCTET && !OctetUsed(t.nodes, i) && e.overlay == OverlayFor(i);
      forall a | a in t.nodes ensures t.nodes[a].overlayIP != e.overlay {
        FreshOverlay(t.nodes, i, a);
      }
    } else {
      assert e.overlay == FALLBACK_OVERLAY;
    }
  }

  lemma NoNewProvision(t: NodeTable, e: Event, a: string)
    requires !Allocates(t, e) && Provisioned(Step(t, e), a)
    ensures Provisioned(t, a)
  {
  }

  lemma OtherStepsKeepUnique(t: NodeTable, e: Event)
    requires TableOk(t) && Possible(t, e) && UniqueOverlays(t)
    requires !Allocates(t, e)
    ensures UniqueOverlays(Step(t, e))
  {
    var t' := Step(t, e);
    StepAdvances(t, e);
    forall a | Provisioned(t', a) ensures Provisioned(t, a) {
      NoNewProvision(t, e, a);
    }
    forall a, b | Provisioned(t', a) && Provisioned(t', b) && a != b
      ensures t'.nodes[a].overlayIP != t'.nodes[b].overlayIP
    {
      assert SameIdentity(t, t', a) && SameIdentity(t, t', b);
    }
  }

  /** prepare allocates in tables of at most 252 nodes only. */
  ghost predicate HasRoom(t: NodeTable, e: Event) {
    Allocates(t, e) ==> |t.nodes| < LAST_OCTET
  }

  /**
    Then all provisioned nodes keep distinct overlay addresses, whatever addresses
    operators register for other nodes.
   */
  lemma {:induction false} OverlaysStayUnique(t: NodeTable, es: seq<Event>)
    requires TableOk(t) && UniqueOverlays(t) && PossibleRun(t, es)
    requires forall k :: 0 <= k < |es| ==> HasRoom(RunFrom(t, es[..k]), es[k])
    ensures UniqueOverlays(RunFrom(t, es))
  {
    if es != [] {
      forall k | 0 <= k < |Init(es)| ensures HasRoom(RunFrom(t, Init(es)[..k]), Init(es)[k]) {
        assert Init(es)[..k] == es[..k];
        assert HasRoom(RunFrom(t, es[..k]), es[k]);
      }
      OverlaysStayUnique(t, Init(es));
      IdentityIsSticky(t, Init(es));
      var mid, e := RunFrom(t, Init(es)), Last(es);
      assert HasRoom(RunFrom(t, es[..|es| - 1]), es[|es| - 1]);
      if Allocates(mid, e) {
        var i := FreeOctetExists(mid.nodes, e.overlay);
        PrepareKeepsUniqueIff(mid, e);
      } else {
        OtherStepsKeepUnique(mid, e);
      }
    }
  }

  // ---- The fallback address is given twice ----

  function AddressGiven(i: nat): string {
    if i <= LAST_OCTET then OverlayFor(i) else FALLBACK_OVERLAY
  }

  /** The prepare of the `i`-th new node. */
  function PrepareNumber(id: string, i: nat): Event {
    PrepareNode(id, "", "", AddressGiven(i), i)
  }

  /** New nodes are prepared one after the other. */
  function Prepares(ids: seq<string>): seq<Event> {
    if ids == [] then [] else Prepares(Init(ids)) + [PrepareNumber(Last(ids), |ids|)]
  }

  ghost predicate NewIDs(ids: seq<string>) {
    NoDup(ids) && "" !in ids
  }

  /** The `i`-th node has the address of its turn. */
  ghost predicate FilledAt(t: NodeTable, ids: seq<string>, i: nat)
    requires i < |ids|
  {
    Provisioned(t, ids[i]) && t.nodes[ids[i]].overlayIP == AddressGiven(i + 1)
  }

  /** The table holds these nodes and no others, each with the address of its turn. */
  ghost predicate FilledBy(t: NodeTable, ids: seq<string>) {
    && (forall i :: 0 <= i < |ids| ==> FilledAt(t, ids, i))
    && (forall id :: id in t.nodes ==> id in ids)
  }

  lemma FilledOctet(t: NodeTable, ids: seq<string>, i: nat)
    requires i < |ids| <= LAST_OCTET && FilledAt(t, ids, i)
    ensures OctetOf(t.nodes[ids[i]]) == Some(i + 1)
  {
    OctetOfOverlay(t.nodes[ids[i]], i + 1);
  }

  lemma UsedOctetIsFilled(t: NodeTable, ids: seq<string>, j: int)
    requires FilledBy(t, ids) && |ids| <= LAST_OCTET && OctetUsed(t.nodes, j)
    ensures 1 <= j <= |ids|
  {
    var id :| id in t.nodes && OctetOf(t.nodes[id]) == Some(j);
    assert id in ids;
    var i :| 0 <= i < |ids| && ids[i] == id;
    FilledOctet(t, ids, i);
  }

  lemma FilledOctets(t: NodeTable, ids: seq<string>, j: int)
    requires FilledBy(t, ids) && |ids| <= LAST_OCTET
    ensures OctetUsed(t.nodes, j) <==> 1 <= j <= |ids|
  {
    if 1 <= j <= |ids| {
      FilledOctet(t, ids, j - 1);
      assert OctetOf(t.nodes[ids[j - 1]]) == Some(j);
    } else if OctetUsed(t.nodes, j) {
      UsedOctetIsFilled(t, ids, j);
    }
  }

  lemma NextIsPossible(t: NodeTable, ids: seq<string>, id: string)
    requires FilledBy(t, ids) && |ids| <= LAST_OCTET && id != "" && id !in ids
    ensures Allocates(t, PrepareNumber(id, |ids| + 1)) && Possible(t, PrepareNumber(id, |ids| + 1))
  {
    forall j ensures OctetUsed(t.nodes, j) <==> 1 <= j <= |ids| {
      FilledOctets(t, ids, j);
    }
  }

  lemma FilledAfter(t: NodeTable, t': NodeTable, ids: seq<string>, id: string)
    requires FilledBy(t, ids) && id !in ids
    requires Provisioned(t', id) && t'.nodes[id].overlayIP == AddressGiven(|ids| + 1)
    requires t'.nodes.Keys == t.nodes.Keys + {id} && forall a :: a in t.nodes ==> t'.nodes[a] == t.nodes[a]
    ensures FilledBy(t', ids + [id])
  {
    var all := ids + [id];
    forall i | 0 <= i < |all| ensures FilledAt(t', all, i) {
      if i < |ids| {
        assert all[i] == ids[i] && FilledAt(t, ids, i);
      }
    }
    forall a | a in t'.nodes ensures a in all {
      assert a == id || a in t.nodes;
    }
  }

  lemma FilledNext(t: NodeTable, ids: seq<string>, id: string)
    requires FilledBy(t, ids) && id !in ids && Allocates(t, PrepareNumber(id, |ids| + 1))
    ensures FilledBy(Step(t, PrepareNumber(id, |ids| + 1)), ids + [id])
  {
    var e := PrepareNumber(id, |ids| + 1);
    PreparedOverlay(t, e);
    forall a | a in t.nodes ensures Step(t, e).nodes[a] == t.nodes[a] {
      assert a in ids;
    }
    FilledAfter(t, Step(t, e), ids, id);
  }

  lemma FillMore(t: NodeTable, es: seq<Event>, ids: seq<string>, id: string)
    requires PossibleRun(t, es) && FilledBy(RunFrom(t, es), ids)
    requires |ids| <= LAST_OCTET && id != "" && id !in ids
    ensures var more := es + [PrepareNumber(id, |ids| + 1)];
            PossibleRun(t, more) && FilledBy(RunFrom(t, more), ids + [id])
  {
    NextIsPossible(RunFrom(t, es), ids, id);
    FilledNext(RunFrom(t, es), ids, id);
    PossibleMore(t, es, PrepareNumber(id, |ids| + 1));
  }

  lemma {:induction false} PreparesFill(ids: seq<string>)
    requires NewIDs(ids) && |ids| <= LAST_OCTET + 1
    ensures PossibleRun(EMPTY, Prepares(ids)) && FilledBy(RunFrom(EMPTY, Prepares(ids)), ids)
  {
    if ids != [] {
      assert ids == Init(ids) + [Last(ids)];
      PreparesFill(Init(ids));
      FillMore(EMPTY, Prepares(Init(ids)), Init(ids), Last(ids));
    }
  }

  lemma OverlaysDiffer(i: nat, j: nat)
    requires i != j && i < INT64_LIMIT && j < INT64_LIMIT
    ensures OverlayFor(i) != OverlayFor(j)
  {
    OctetOfOverlay(ZERO_NODE.(overlayIP := OverlayFor(i)), i);
    OctetOfOverlay(ZERO_NODE.(overlayIP := OverlayFor(j)), j);
  }

  lemma FilledAddress(t: NodeTable, ids: seq<string>, a: string) returns (i: nat)
    requires FilledBy(t, ids) && a in t.nodes
    ensures i < |ids| && ids[i] == a && t.nodes[a].overlayIP == AddressGiven(i + 1)
  {
    assert a in ids;
    i :| 0 <= i < |ids| && ids[i] == a;
    assert FilledAt(t, ids, i);
  }

  lemma FilledDiffer(t: NodeTable, ids: seq<string>, a: string, b: string)
    requires FilledBy(t, ids) && |ids| <= LAST_OCTET && a in t.nodes && b in t.nodes && a != b
    ensures t.nodes[a].overlayIP != t.nodes[b].overlayIP
  {
    var i := FilledAddress(t, ids, a);
    var j := FilledAddress(t, ids, b);
    OverlaysDiffer(i + 1, j + 1);
  }

  lemma FilledIsUnique(t: NodeTable, ids: seq<string>)
    requires FilledBy(t, ids) && |ids| <= LAST_OCTET
    ensures UniqueOverlays(t)
  {
    forall a, b | Provisioned(t, a) && Provisioned(t, b) && a != b
      ensures t.nodes[a].overlayIP != t.nodes[b].overlayIP
    {
      FilledDiffer(t, ids, a, b);
    }
  }

  lemma Octet250IsFallback()
    ensures OverlayFor(250) == FALLBACK_OVERLAY
  {
    assert Dec(250) == "250";
  }

  /**
    The allocator hands out the fallback as octet 250 already: of any 254 new nodes prepared
    one after the other the first 253 get distinct addresses, and the last gets that of the 250th.
   */
  lemma FallbackGivenTwice(ids: seq<string>)
    requires NewIDs(ids) && |ids| == LAST_OCTET + 1
    ensures PossibleRun(EMPTY, Prepares(Init(ids))) && UniqueOverlays(RunFrom(EMPTY, Prepares(Init(ids))))
    ensures PossibleRun(EMPTY, Prepares(ids)) && !UniqueOverlays(RunFrom(EMPTY, Prepares(ids)))
    ensures var t := RunFrom(EMPTY, Prepares(ids));
            && Provisioned(t, ids[249]) && Provisioned(t, ids[253])
            && t.nodes[ids[249]].overlayIP == t.nodes[ids[253]].overlayIP == FALLBACK_OVERLAY
  {
    PreparesFill(Init(ids));
    FilledIsUnique(RunFrom(EMPTY, Prepares(Init(ids))), Init(ids));
    PreparesFill(ids);
    Octet250IsFallback();
    var t := RunFrom(EMPTY, Prepares(ids));
    assert FilledAt(t, ids, 249) && FilledAt(t, ids, 253);
  }
}
