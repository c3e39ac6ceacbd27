/**
 * The aut-num side of the route-table generator: the peerings named by the `to ... at ...`
 * clauses of an aut-num's `export` attributes (peering specifications of RFC 2622, sections
 * 6.1.1 and 6.2), the map from each peer (AS number, address) to the routes exported to it,
 * and the lookup of the AS number a peer address belongs to.
 */
module BgpAutNums {
  import opened Wrappers
  import opened RpslObjects

  /** A BGP peer: its AS number and its address ("0.0.0.0" stands for the whole AS). */
  datatype Peer = Peer(asn: nat, address: string)

  /** A peering descriptor: the peer, and the local router the routes are exported from. */
  datatype ExportPeer = ExportPeer(peer: Peer, localRouter: string)

  /** A route: an address prefix and the maintainer it was declared under, if any. */
  datatype Route = Route(prefix: string, maintainer: Option<string>)

  /** The exceptions that escape the peering scan. */
  datatype ExportError =
    | NotAnExportAttribute     // the attribute handed over is not an `export`
    | PeeringIndexOutOfRange   // a `to` token is the last token: the look-ahead reads past the end

  /** The peer address recorded for a `to` clause that names no peer router. */
  const WildcardAddress := "0.0.0.0"

  // ---------------------------------------------------------------------------------------
  // The peering scan over an export attribute's token list

  /**
   * The peers contributed by the token at position `i`: nothing unless it is a `to` whose
   * next token is an `at` with exactly one address and whose first value parses as an AS
   * number; then one peer per listed address, or the wildcard peer when none is listed.
   */
  function PeersOfClause(tokens: seq<Token>, i: nat, parseAS: string -> Option<nat>): set<ExportPeer>
    requires i < |tokens|
  {
    if tokens[i].keyword != "to" || i + 1 == |tokens| then {}
    else if tokens[i + 1].keyword != "at" || |tokens[i + 1].values| != 1 then {}
    else
      var values := tokens[i].values;
      if |values| < 1 || parseAS(values[0]).None? then {}
      else
        var asn, router := parseAS(values[0]).value, tokens[i + 1].values[0];
        if |values| < 2 then {ExportPeer(Peer(asn, WildcardAddress), router)}
        else set k | 1 <= k < |values| :: ExportPeer(Peer(asn, values[k]), router)
  }

  /** The peers contributed by the first `n` tokens. */
  function PeersUpTo(tokens: seq<Token>, n: nat, parseAS: string -> Option<nat>): set<ExportPeer>
    requires n <= |tokens|
  {
    if n == 0 then {} else PeersUpTo(tokens, n - 1, parseAS) + PeersOfClause(tokens, n - 1, parseAS)
  }

  /** The last token is a `to`: the scan's look-ahead for its `at` fails. */
  predicate EndsWithTo(tokens: seq<Token>) {
    |tokens| > 0 && tokens[|tokens| - 1].keyword == "to"
  }

  /** What the peering scan of an attribute returns or throws. */
  function ExportPeers(attr: RpslAttribute, parseAS: string -> Option<nat>): Result<set<ExportPeer>, ExportError> {
    if attr.attrType != Some(Export) then Failure(NotAnExportAttribute)
    else if EndsWithTo(attr.tokenList) then Failure(PeeringIndexOutOfRange)
    else Success(PeersUpTo(attr.tokenList, |attr.tokenList|, parseAS))
  }

  /**
   * The clause at position `i` declares the peering `ep`: `to <AS> [addresses] at <router>`
   * with a parseable AS, exactly one router, and `ep`'s address among the listed ones (the
   * wildcard when none is listed).
   */
  ghost predicate Declares(tokens: seq<Token>, parseAS: string -> Option<nat>, i: int, ep: ExportPeer) {
    && 0 <= i && i + 1 < |tokens|
    && tokens[i].keyword == "to"
    && tokens[i + 1].keyword == "at" && |tokens[i + 1].values| == 1
    && |tokens[i].values| >= 1 && parseAS(tokens[i].values[0]) == Some(ep.peer.asn)
    && ep.localRouter == tokens[i + 1].values[0]
    && if |tokens[i].values| == 1 then ep.peer.address == WildcardAddress
       else ep.peer.address in tokens[i].values[1..]
  }

  lemma ClauseDeclares(tokens: seq<Token>, i: nat, parseAS: string -> Option<nat>, ep: ExportPeer)
    requires i < |tokens|
    ensures ep in PeersOfClause(tokens, i, parseAS) <==> Declares(tokens, parseAS, i, ep)
  {
    if Declares(tokens, parseAS, i, ep) && |tokens[i].values| > 1 {
      var values := tokens[i].values;
      var k :| 0 <= k < |values[1..]| && values[1..][k] == ep.peer.address;
      assert values[k + 1] == ep.peer.address;
    }
  }

  lemma {:induction false} PeersUpToDeclared(tokens: seq<Token>, n: nat, parseAS: string -> Option<nat>)
    requires n <= |tokens|
    ensures forall ep :: ep in PeersUpTo(tokens, n, parseAS) <==>
      exists i :: 0 <= i < n && Declares(tokens, parseAS, i, ep)
  {
    if n > 0 {
      var last := n - 1;
      PeersUpToDeclared(tokens, last, parseAS);
      forall ep
        ensures ep in PeersOfClause(tokens, last, parseAS) <==> Declares(tokens, parseAS, last, ep)
      {
        ClauseDeclares(tokens, last, parseAS, ep);
      }
    }
  }

  /**
   * The scan of an export attribute yields exactly the peerings its well-formed clauses
   * declare; tokens other than `to`, malformed `at` parts and unparseable AS numbers add
   * nothing and do not stop the scan.
   */
  lemma ExportPeersDeclared(attr: RpslAttribute, parseAS: string -> Option<nat>)
    requires ExportPeers(attr, parseAS).Success?
    ensures forall ep :: ep in ExportPeers(attr, parseAS).value <==>
      exists i :: Declares(attr.tokenList, parseAS, i, ep)
  {
    PeersUpToDeclared(attr.tokenList, |attr.tokenList|, parseAS);
  }

  lemma {:induction false} AddressPeersCount(addresses: set<string>, asn: nat, router: string)
    ensures |set a | a in addresses :: ExportPeer(Peer(asn, a), router)| == |addresses|
    decreases addresses
  {
    if addresses != {} {
      var x :| x in addresses;
      var rest := addresses - {x};
      AddressPeersCount(rest, asn, router);
      var all := set a | a in addresses :: ExportPeer(Peer(asn, a), router);
      var fewer := set a | a in rest :: ExportPeer(Peer(asn, a), router);
      assert all == fewer + {ExportPeer(Peer(asn, x), router)};
      assert ExportPeer(Peer(asn, x), router) !in fewer;
    }
  }

  /**
   * A well-formed clause `to AS<n> a1 .. ak at R` yields one peering per distinct listed
   * address (repeated addresses collapse), and `to AS<n> at R` yields exactly one.
   */
  lemma ClausePeerCount(tokens: seq<Token>, i: nat, parseAS: string -> Option<nat>)
    requires i + 1 < |tokens| && tokens[i].keyword == "to"
    requires tokens[i + 1].keyword == "at" && |tokens[i + 1].values| == 1
    requires |tokens[i].values| >= 1 && parseAS(tokens[i].values[0]).Some?
    ensures |tokens[i].values| == 1 ==> |PeersOfClause(tokens, i, parseAS)| == 1
    ensures |tokens[i].values| > 1 ==>
      |PeersOfClause(tokens, i, parseAS)| == |set k | 1 <= k < |tokens[i].values| :: tokens[i].values[k]|
  {
    var values := tokens[i].values;
    var asn, router := parseAS(values[0]).value, tokens[i + 1].values[0];
    if |values| > 1 {
      var addresses := set k | 1 <= k < |values| :: values[k];
      AddressPeersCount(addresses, asn, router);
      assert PeersOfClause(tokens, i, parseAS) == set a | a in addresses :: ExportPeer(Peer(asn, a), router);
    }
  }

  /** getExportPeers: scans the token list for `to ... at ...` peering specifications. */
  method GetExportPeers(attr: RpslAttribute, parseAS: string -> Option<nat>)
    returns (r: Result<set<ExportPeer>, ExportError>)
    ensures r == ExportPeers(attr, parseAS)
    ensures r.Failure? <==> attr.attrType != Some(Export) || EndsWithTo(attr.tokenList)
    ensures attr.attrType != Some(Export) ==> r == Failure(NotAnExportAttribute)
  {
    if attr.attrType != Some(Export) {
      return Failure(NotAnExportAttribute);
    }
    var exportPeers: set<ExportPeer> := {};
    var tokens := attr.tokenList;
    for i := 0 to |tokens|
      invariant exportPeers == PeersUpTo(tokens, i, parseAS)
      invariant forall j :: 0 <= j < i && tokens[j].keyword == "to" ==> j + 1 < |tokens|
    {
      var current := tokens[i];
      var pairRight := current.values;
      if current.keyword != "to" {
        continue;
      }
      // getExportPeers' bounds guard `i < size + 1` always holds, so a final `to` reads past the end.
      if i + 1 == |tokens| {
        return Failure(PeeringIndexOutOfRange);
      }
      if tokens[i + 1].keyword != "at" || |tokens[i + 1].values| != 1 {
        continue;
      }
      if |pairRight| < 1 {
        continue;
      }
      var peerAN := parseAS(pairRight[0]);
      if peerAN.None? {
        continue;
      }
      var autNum := peerAN.value;
      var localRouter := tokens[i + 1].values[0];
      if |pairRight| < 2 {
        exportPeers := exportPeers + {ExportPeer(Peer(autNum, WildcardAddress), localRouter)};
      } else {
        for j := 1 to |pairRight|
          invariant exportPeers == PeersUpTo(tokens, i, parseAS) +
            set k | 1 <= k < j :: ExportPeer(Peer(autNum, pairRight[k]), localRouter)
        {
          exportPeers := exportPeers + {ExportPeer(Peer(autNum, pairRight[j]), localRouter)};
        }
      }
    }
    return Success(exportPeers);
  }

  /** An export attribute with the given token list. */
  function ExportAttribute(tokens: seq<Token>): (a: RpslAttribute)
    ensures a.attrType == Some(Export) && a.tokenList == tokens
  {
    RpslAttribute("export", Some(Export), "", [], tokens)
  }

  /**
   * `to AS1 1.1.1.1 2.2.2.2 at 3.3.3.3` gives one peering per address, both with AS 1 and
   * local router 3.3.3.3.
   */
  lemma AddressedClauseExample(parseAS: string -> Option<nat>)
    requires parseAS("AS1") == Some(1)
    ensures ExportPeers(ExportAttribute([Token("to", ["AS1", "1.1.1.1", "2.2.2.2"]), Token("at", ["3.3.3.3"])]), parseAS)
      == Success({ExportPeer(Peer(1, "1.1.1.1"), "3.3.3.3"), ExportPeer(Peer(1, "2.2.2.2"), "3.3.3.3")})
  {
    var tokens := [Token("to", ["AS1", "1.1.1.1", "2.2.2.2"]), Token("at", ["3.3.3.3"])];
    var values := tokens[0].values;
    var expected := {ExportPeer(Peer(1, "1.1.1.1"), "3.3.3.3"), ExportPeer(Peer(1, "2.2.2.2"), "3.3.3.3")};
    var listed := set k | 1 <= k < |values| :: ExportPeer(Peer(1, values[k]), "3.3.3.3");
    assert values[1] == "1.1.1.1" && values[2] == "2.2.2.2";
    assert ExportPeer(Peer(1, values[1]), "3.3.3.3") in listed;
    assert ExportPeer(Peer(1, values[2]), "3.3.3.3") in listed;
    assert listed == expected;
    assert tokens[1].keyword != "to";
    assert PeersOfClause(tokens, 0, parseAS) == listed;
    assert PeersOfClause(tokens, 1, parseAS) == {};
    assert PeersUpTo(tokens, 2, parseAS) == PeersUpTo(tokens, 1, parseAS) + PeersOfClause(tokens, 1, parseAS);
    assert !EndsWithTo(tokens);
    assert ExportPeers(ExportAttribute(tokens), parseAS) == Success(PeersUpTo(tokens, 2, parseAS));
    assert PeersUpTo(tokens, 1, parseAS) == listed;
    assert PeersUpTo(tokens, 2, parseAS) == expected;
  }

  /**
   * A clause whose `at` names two routers is skipped, and the scan goes on to the next
   * clause, which names no address and so gives the wildcard peer.
   */
  lemma SkippedClauseExample(parseAS: string -> Option<nat>)
    requires parseAS("AS2") == Some(2)
    ensures ExportPeers(ExportAttribute([Token("to", ["AS1"]), Token("at", ["r1", "r2"]),
                                         Token("to", ["AS2"]), Token("at", ["r3"])]), parseAS)
      == Success({ExportPeer(Peer(2, WildcardAddress), "r3")})
  {
    var tokens := [Token("to", ["AS1"]), Token("at", ["r1", "r2"]), Token("to", ["AS2"]), Token("at", ["r3"])];
    assert tokens[1].keyword != "to" && tokens[3].keyword != "to";
    assert PeersOfClause(tokens, 0, parseAS) == {};
    assert PeersOfClause(tokens, 1, parseAS) == {};
    assert PeersOfClause(tokens, 2, parseAS) == {ExportPeer(Peer(2, WildcardAddress), "r3")};
    assert PeersOfClause(tokens, 3, parseAS) == {};
    assert PeersUpTo(tokens, 2, parseAS) == {};
    assert PeersUpTo(tokens, 4, parseAS) == PeersUpTo(tokens, 3, parseAS) + PeersOfClause(tokens, 3, parseAS);
    assert !EndsWithTo(tokens);
    assert ExportPeers(ExportAttribute(tokens), parseAS) == Success(PeersUpTo(tokens, 4, parseAS));
    assert PeersUpTo(tokens, 3, parseAS) == PeersUpTo(tokens, 2, parseAS) + PeersOfClause(tokens, 2, parseAS);
    assert PeersUpTo(tokens, 4, parseAS) == {ExportPeer(Peer(2, WildcardAddress), "r3")};
  }

  /** A `to` as the last token makes the whole scan fail, discarding a well-formed clause before it. */
  lemma TrailingPeeringExample(parseAS: string -> Option<nat>)
    ensures ExportPeers(ExportAttribute([Token("to", ["AS1"]), Token("at", ["r1"]), Token("to", ["AS2"])]), parseAS)
      == Failure(PeeringIndexOutOfRange)
  {
  }

  // ---------------------------------------------------------------------------------------
  // The peer route map (an insertion-ordered multimap with set semantics per key)

  /**
   * The keys in first-insertion order and the routes of each key. A key is present exactly
   * while it has at least one route.
   */
  datatype PeerRouteMap = PeerRouteMap(keys: seq<Peer>, routes: map<Peer, set<Route>>) {
    ghost predicate Valid() {
      && Distinct(keys)
      && (forall p :: p in routes <==> p in keys)
      && (forall p :: p in routes ==> routes[p] != {})
    }

    function Get(p: Peer): set<Route> {
      if p in routes then routes[p] else {}
    }
  }

  const EmptyRouteMap := PeerRouteMap([], map[])

  /**
   * Multimap.putAll: adds the routes `vs` to key `k`. An empty `vs` changes nothing; a new
   * key goes to the end of the key order.
   */
  function PutAll(m: PeerRouteMap, k: Peer, vs: set<Route>): (r: PeerRouteMap)
    requires m.Valid()
    ensures r.Valid()
    ensures forall p :: r.Get(p) == m.Get(p) + (if p == k then vs else {})
    ensures r.keys == if k in m.routes || vs == {} then m.keys else m.keys + [k]
  {
    if vs == {} then m
    else if k in m.routes then PeerRouteMap(m.keys, m.routes[k := m.routes[k] + vs])
    else PeerRouteMap(m.keys + [k], m.routes[k := vs])
  }

  /** The routes the peerings `peers` of `attr` export to peer `p`. */
  function PeerRoutes(attr: RpslAttribute, peers: set<ExportPeer>, p: Peer,
                      resolveRoutes: (RpslAttribute, string) -> set<Route>): set<Route>
  {
    set ep, r | ep in peers && ep.peer == p && r in resolveRoutes(attr, ep.localRouter) :: r
  }

  lemma PeerRoutesAdd(attr: RpslAttribute, done: set<ExportPeer>, ep: ExportPeer, p: Peer,
                      resolveRoutes: (RpslAttribute, string) -> set<Route>)
    ensures PeerRoutes(attr, done + {ep}, p, resolveRoutes) ==
      PeerRoutes(attr, done, p, resolveRoutes) + (if ep.peer == p then resolveRoutes(attr, ep.localRouter) else {})
  {
  }

  /** The routes attribute `attr` exports to peer `p` (none unless it is a parseable export). */
  function AttributeRoutes(attr: RpslAttribute, p: Peer, parseAS: string -> Option<nat>,
                           resolveRoutes: (RpslAttribute, string) -> set<Route>): set<Route>
  {
    if attr.attrType != Some(Export) then {}
    else
      match ExportPeers(attr, parseAS)
      case Success(peers) => PeerRoutes(attr, peers, p, resolveRoutes)
      case Failure(_) => {}
  }

  /** The routes the first `n` attributes export to peer `p`. */
  function RoutesUpTo(attrs: seq<RpslAttribute>, n: nat, p: Peer, parseAS: string -> Option<nat>,
                      resolveRoutes: (RpslAttribute, string) -> set<Route>): set<Route>
    requires n <= |attrs|
  {
    if n == 0 then {}
    else RoutesUpTo(attrs, n - 1, p, parseAS, resolveRoutes) + AttributeRoutes(attrs[n - 1], p, parseAS, resolveRoutes)
  }

  /**
   * A route reaches peer `p` exactly when some export attribute has a peering with `p`
   * whose local router the route resolves for.
   */
  lemma {:induction false} RoutesUpToMembers(attrs: seq<RpslAttribute>, n: nat, p: Peer,
                                             parseAS: string -> Option<nat>,
                                             resolveRoutes: (RpslAttribute, string) -> set<Route>)
    requires n <= |attrs|
    ensures forall r :: r in RoutesUpTo(attrs, n, p, parseAS, resolveRoutes) <==>
      exists i, ep :: 0 <= i < n && attrs[i].attrType == Some(Export)
        && ExportPeers(attrs[i], parseAS).Success? && ep in ExportPeers(attrs[i], parseAS).value
        && ep.peer == p && r in resolveRoutes(attrs[i], ep.localRouter)
  {
    if n > 0 {
      RoutesUpToMembers(attrs, n - 1, p, parseAS, resolveRoutes);
    }
  }

  lemma {:induction false} RoutesUpToMonotone(attrs: seq<RpslAttribute>, n: nat, p: Peer,
                                              parseAS: string -> Option<nat>,
                                              resolveRoutes: (RpslAttribute, string) -> set<Route>)
    requires n <= |attrs|
    ensures forall j :: 0 <= j <= n ==>
      RoutesUpTo(attrs, j, p, parseAS, resolveRoutes) <= RoutesUpTo(attrs, n, p, parseAS, resolveRoutes)
  {
    if n > 0 {
      RoutesUpToMonotone(attrs, n - 1, p, parseAS, resolveRoutes);
    }
  }

  /** Every export attribute's peering scan succeeds. */
  ghost predicate ExportsParse(attrs: seq<RpslAttribute>, parseAS: string -> Option<nat>) {
    forall i :: 0 <= i < |attrs| && attrs[i].attrType == Some(Export) ==> ExportPeers(attrs[i], parseAS).Success?
  }

  /** The first `j` attributes export some route to peer `p`. */
  ghost predicate Reaches(attrs: seq<RpslAttribute>, j: nat, p: Peer, parseAS: string -> Option<nat>,
                          resolveRoutes: (RpslAttribute, string) -> set<Route>)
    requires j <= |attrs|
  {
    RoutesUpTo(attrs, j, p, parseAS, resolveRoutes) != {}
  }

  /**
   * First-insertion order: any prefix of the first `n` attributes that gives routes to a
   * later key also gives routes to every earlier key.
   */
  ghost predicate InsertionOrdered(keys: seq<Peer>, attrs: seq<RpslAttribute>, n: nat,
                                   parseAS: string -> Option<nat>,
                                   resolveRoutes: (RpslAttribute, string) -> set<Route>)
  {
    && n <= |attrs|
    && forall a, b, j ::
         (0 <= a < b < |keys| && 0 <= j <= n && Reaches(attrs, j, keys[b], parseAS, resolveRoutes)) ==>
         Reaches(attrs, j, keys[a], parseAS, resolveRoutes)
  }

  lemma OrderedAfterAppend(keys: seq<Peer>, k: Peer, attrs: seq<RpslAttribute>, n: nat,
                           parseAS: string -> Option<nat>,
                           resolveRoutes: (RpslAttribute, string) -> set<Route>)
    requires InsertionOrdered(keys, attrs, n, parseAS, resolveRoutes)
    requires RoutesUpTo(attrs, n, k, parseAS, resolveRoutes) == {}
    ensures InsertionOrdered(keys + [k], attrs, n, parseAS, resolveRoutes)
  {
    RoutesUpToMonotone(attrs, n, k, parseAS, resolveRoutes);
    var keys' := keys + [k];
    forall a, b, j | 0 <= a < b < |keys'| && 0 <= j <= n && Reaches(attrs, j, keys'[b], parseAS, resolveRoutes)
      ensures Reaches(attrs, j, keys'[a], parseAS, resolveRoutes)
    {
      assert b < |keys|;
      assert keys'[a] == keys[a] && keys'[b] == keys[b];
    }
  }

  /** One attribute's routes added to a map of the earlier ones give the map of one more. */
  lemma RouteMapStep(m: PeerRouteMap, attrs: seq<RpslAttribute>, n: nat,
                     parseAS: string -> Option<nat>,
                     resolveRoutes: (RpslAttribute, string) -> set<Route>)
    requires n < |attrs| && m.Valid()
    requires forall p ::
      m.Get(p) == RoutesUpTo(attrs, n, p, parseAS, resolveRoutes) + AttributeRoutes(attrs[n], p, parseAS, resolveRoutes)
    requires InsertionOrdered(m.keys, attrs, n, parseAS, resolveRoutes)
    ensures forall p :: m.Get(p) == RoutesUpTo(attrs, n + 1, p, parseAS, resolveRoutes)
    ensures InsertionOrdered(m.keys, attrs, n + 1, parseAS, resolveRoutes)
  {
    forall a | 0 <= a < |m.keys|
      ensures Reaches(attrs, n + 1, m.keys[a], parseAS, resolveRoutes)
    {
      assert m.keys[a] in m.routes;
    }
  }

  /** Putting routes under a key the first `n` attributes do not reach keeps the key order. */
  lemma PutAllKeepsOrder(m: PeerRouteMap, k: Peer, vs: set<Route>, attrs: seq<RpslAttribute>, n: nat,
                         parseAS: string -> Option<nat>,
                         resolveRoutes: (RpslAttribute, string) -> set<Route>)
    requires m.Valid() && InsertionOrdered(m.keys, attrs, n, parseAS, resolveRoutes)
    requires RoutesUpTo(attrs, n, k, parseAS, resolveRoutes) <= m.Get(k)
    ensures InsertionOrdered(PutAll(m, k, vs).keys, attrs, n, parseAS, resolveRoutes)
  {
    if k !in m.routes && vs != {} {
      OrderedAfterAppend(m.keys, k, attrs, n, parseAS, resolveRoutes);
    }
  }

  /** Putting one more peering's routes extends each peer's routes by that peering's share. */
  lemma PutAllAddsPeering(m: PeerRouteMap, attrs: seq<RpslAttribute>, n: nat, done: set<ExportPeer>,
                          ep: ExportPeer, parseAS: string -> Option<nat>,
                          resolveRoutes: (RpslAttribute, string) -> set<Route>)
    requires n < |attrs| && m.Valid()
    requires forall p ::
      m.Get(p) == RoutesUpTo(attrs, n, p, parseAS, resolveRoutes) + PeerRoutes(attrs[n], done, p, resolveRoutes)
    ensures forall p ::
      PutAll(m, ep.peer, resolveRoutes(attrs[n], ep.localRouter)).Get(p) ==
        RoutesUpTo(attrs, n, p, parseAS, resolveRoutes) + PeerRoutes(attrs[n], done + {ep}, p, resolveRoutes)
  {
    forall p
      ensures PeerRoutes(attrs[n], done + {ep}, p, resolveRoutes) ==
        PeerRoutes(attrs[n], done, p, resolveRoutes)
          + (if ep.peer == p then resolveRoutes(attrs[n], ep.localRouter) else {})
    {
      PeerRoutesAdd(attrs[n], done, ep, p, resolveRoutes);
    }
  }

  /**
   * The inner loop of the route-map generation: for each peering of the `n`-th attribute,
   * adds the routes it resolves for the peering's local router under the peering's peer.
   */
  method PutPeerRoutes(m: PeerRouteMap, attrs: seq<RpslAttribute>, n: nat, peers: set<ExportPeer>,
                       parseAS: string -> Option<nat>,
                       resolveRoutes: (RpslAttribute, string) -> set<Route>)
    returns (r: PeerRouteMap)
    requires n < |attrs| && m.Valid()
    requires forall p :: m.Get(p) == RoutesUpTo(attrs, n, p, parseAS, resolveRoutes)
    requires InsertionOrdered(m.keys, attrs, n, parseAS, resolveRoutes)
    ensures r.Valid()
    ensures forall p ::
      r.Get(p) == RoutesUpTo(attrs, n, p, parseAS, resolveRoutes) + PeerRoutes(attrs[n], peers, p, resolveRoutes)
    ensures InsertionOrdered(r.keys, attrs, n, parseAS, resolveRoutes)
  {
    var attr := attrs[n];
    r := m;
    var remaining := peers;
    ghost var done: set<ExportPeer> := {};
    while remaining != {}
      invariant remaining + done == peers && remaining !! done
      invariant r.Valid()
      invariant forall p ::
        r.Get(p) == RoutesUpTo(attrs, n, p, parseAS, resolveRoutes) + PeerRoutes(attr, done, p, resolveRoutes)
      invariant InsertionOrdered(r.keys, attrs, n, parseAS, resolveRoutes)
      decreases remaining
    {
      var exportPeer :| exportPeer in remaining;
      var routes := resolveRoutes(attr, exportPeer.localRouter);
      PutAllKeepsOrder(r, exportPeer.peer, routes, attrs, n, parseAS, resolveRoutes);
      PutAllAddsPeering(r, attrs, n, done, exportPeer, parseAS, resolveRoutes);
      r := PutAll(r, exportPeer.peer, routes);
      remaining, done := remaining - {exportPeer}, done + {exportPeer};
    }
    assert done == peers;
  }

  /** The state the route-map generation leaves: the routes and key order the attributes dictate. */
  ghost predicate IsRouteMapOf(m: PeerRouteMap, attrs: seq<RpslAttribute>,
                               parseAS: string -> Option<nat>,
                               resolveRoutes: (RpslAttribute, string) -> set<Route>)
  {
    && m.Valid()
    && (forall p :: m.Get(p) == RoutesUpTo(attrs, |attrs|, p, parseAS, resolveRoutes))
    && InsertionOrdered(m.keys, attrs, |attrs|, parseAS, resolveRoutes)
  }

  /**
   * In a generated route map, route `r` sits under peer `p` exactly when some export
   * attribute has a well-formed clause naming `p` whose local router `r` resolves for.
   */
  lemma RouteMapDeclared(m: PeerRouteMap, attrs: seq<RpslAttribute>, parseAS: string -> Option<nat>,
                         resolveRoutes: (RpslAttribute, string) -> set<Route>, p: Peer, r: Route)
    requires IsRouteMapOf(m, attrs, parseAS, resolveRoutes) && ExportsParse(attrs, parseAS)
    ensures r in m.Get(p) <==> exists i, c, ep ::
      && 0 <= i < |attrs| && attrs[i].attrType == Some(Export)
      && Declares(attrs[i].tokenList, parseAS, c, ep) && ep.peer == p
      && r in resolveRoutes(attrs[i], ep.localRouter)
  {
    RoutesUpToMembers(attrs, |attrs|, p, parseAS, resolveRoutes);
    if r in m.Get(p) {
      var i, ep :| && 0 <= i < |attrs| && attrs[i].attrType == Some(Export)
        && ExportPeers(attrs[i], parseAS).Success? && ep in ExportPeers(attrs[i], parseAS).value
        && ep.peer == p && r in resolveRoutes(attrs[i], ep.localRouter);
      ExportPeersDeclared(attrs[i], parseAS);
      var c :| Declares(attrs[i].tokenList, parseAS, c, ep);
    }
    if exists i, c, ep :: && 0 <= i < |attrs| && attrs[i].attrType == Some(Export)
        && Declares(attrs[i].tokenList, parseAS, c, ep) && ep.peer == p
        && r in resolveRoutes(attrs[i], ep.localRouter)
    {
      var i, c, ep :| && 0 <= i < |attrs| && attrs[i].attrType == Some(Export)
        && Declares(attrs[i].tokenList, parseAS, c, ep) && ep.peer == p
        && r in resolveRoutes(attrs[i], ep.localRouter);
      ExportPeersDeclared(attrs[i], parseAS);
      assert ep in ExportPeers(attrs[i], parseAS).value;
    }
  }

  // ---------------------------------------------------------------------------------------
  // Decimal rendering of AS numbers

  predicate IsDecimal(s: string) {
    |s| >= 1 && forall i :: 0 <= i < |s| ==> '0' <= s[i] <= '9'
  }

  function DecimalString(n: nat): (s: string)
    ensures |s| >= 1
  {
    if n < 10 then [('0' as int + n) as char]
    else DecimalString(n / 10) + [('0' as int + n % 10) as char]
  }

  function DecimalValue(s: string): nat
    requires forall i :: 0 <= i < |s| ==> '0' <= s[i] <= '9'
  {
    if s == [] then 0 else DecimalValue(s[..|s| - 1]) * 10 + (s[|s| - 1] as int - '0' as int)
  }

  /** The decimal text of an AS number is digits only, has no leading zero, and reads back. */
  lemma {:induction false} DecimalRoundTrip(n: nat)
    ensures IsDecimal(DecimalString(n))
    ensures |DecimalString(n)| == 1 || DecimalString(n)[0] != '0'
    ensures DecimalValue(DecimalString(n)) == n
  {
    if n >= 10 {
      DecimalRoundTrip(n / 10);
      var s := DecimalString(n);
      assert s[..|s| - 1] == DecimalString(n / 10);
    }
  }

  // ---------------------------------------------------------------------------------------
  // The aut-num object

  /** The exceptions that make building an aut-num fail. */
  datatype AutNumError =
    | NotAnAutNum(given: ObjectType)    // the object is not of type aut-num
    | UnparsableAutNum                  // the aut-num attribute's value is no AS number
    | AsNameLookup(lookupError: RpslError) // no single as-name attribute
    | ExportScan(scanError: ExportError)   // an export attribute's peering scan threw

  class BgpAutNum {
    const rpslObject: RpslObject
    const autNum: nat
    const name: string
    /** AutNum.parse: the AS number an `AS<n>` token denotes, if any. */
    const parseAS: string -> Option<nat>
    /** BGPRoute.resolveRoutes: the routes an export attribute announces from a local router. */
    const resolveRoutes: (RpslAttribute, string) -> set<Route>
    var includedRouteMap: PeerRouteMap

    ghost predicate Valid()
      reads this
    {
      IsRouteMapOf(includedRouteMap, rpslObject.attributes, parseAS, resolveRoutes)
    }

    /** Allocation only; `Create` is the constructor's checks and route-map generation. */
    constructor (obj: RpslObject, autNum: nat, name: string, parseAS: string -> Option<nat>,
                 resolveRoutes: (RpslAttribute, string) -> set<Route>)
      ensures rpslObject == obj && this.autNum == autNum && this.name == name
      ensures this.parseAS == parseAS && this.resolveRoutes == resolveRoutes
      ensures includedRouteMap == EmptyRouteMap
    {
      rpslObject := obj;
      this.autNum := autNum;
      this.name := name;
      this.parseAS := parseAS;
      this.resolveRoutes := resolveRoutes;
      includedRouteMap := EmptyRouteMap;
    }

    /**
     * The constructor: the object must be an aut-num whose type attribute parses as an AS
     * number and which has a single as-name; then the route maps are generated.
     */
    static method Create(obj: RpslObject, parseAS: string -> Option<nat>,
                         resolveRoutes: (RpslAttribute, string) -> set<Route>)
      returns (r: Result<BgpAutNum, AutNumError>)
      requires obj.Valid()
      ensures obj.objectType != AutNumObject ==> r == Failure(NotAnAutNum(obj.objectType))
      ensures obj.objectType == AutNumObject && parseAS(obj.typeAttribute.cleanValue).None? ==>
        r == Failure(UnparsableAutNum)
      ensures && obj.objectType == AutNumObject && parseAS(obj.typeAttribute.cleanValue).Some?
              && obj.GetValueForAttribute(AsName).Failure? ==>
        r == Failure(AsNameLookup(KeyError(obj.attributes, AsName)))
      ensures && obj.objectType == AutNumObject && parseAS(obj.typeAttribute.cleanValue).Some?
              && obj.GetValueForAttribute(AsName).Success? && !ExportsParse(obj.attributes, parseAS) ==>
        r == Failure(ExportScan(PeeringIndexOutOfRange))
      ensures r.Success? <==>
        && obj.objectType == AutNumObject
        && parseAS(obj.typeAttribute.cleanValue).Some?
        && obj.GetValueForAttribute(AsName).Success?
        && ExportsParse(obj.attributes, parseAS)
      ensures r.Success? ==>
        && fresh(r.value) && r.value.Valid()
        && r.value.rpslObject == obj && r.value.parseAS == parseAS && r.value.resolveRoutes == resolveRoutes
        && r.value.autNum == parseAS(obj.typeAttribute.cleanValue).value
        && r.value.name == obj.GetValueForAttribute(AsName).value
    {
      if obj.objectType != AutNumObject {
        return Failure(NotAnAutNum(obj.objectType));
      }
      var autNum := parseAS(obj.typeAttribute.cleanValue);
      if autNum.None? {
        return Failure(UnparsableAutNum);
      }
      var name := obj.GetValueForAttribute(AsName);
      if name.Failure? {
        return Failure(AsNameLookup(name.error));
      }
      var bgp := new BgpAutNum(obj, autNum.value, name.value, parseAS, resolveRoutes);
      var failure := bgp.GenerateRouteMaps();
      if failure.Some? {
        return Failure(ExportScan(failure.value));
      }
      return Success(bgp);
    }

    /**
     * generateRouteMaps: adds, for every peering of every export attribute, the routes the
     * attribute resolves for the peering's local router under the peer's key; assigns the
     * map only when every scan succeeds.
     */
    method GenerateRouteMaps() returns (failure: Option<ExportError>)
      modifies this`includedRouteMap
      ensures failure.None? <==> ExportsParse(rpslObject.attributes, parseAS)
      ensures failure.Some? ==> failure.value == PeeringIndexOutOfRange
      ensures failure.None? ==> Valid()
      ensures failure.Some? ==> includedRouteMap == old(includedRouteMap)
    {
      var attrs := rpslObject.attributes;
      var m := EmptyRouteMap;
      for i := 0 to |attrs|
        invariant m.Valid()
        invariant forall p :: m.Get(p) == RoutesUpTo(attrs, i, p, parseAS, resolveRoutes)
        invariant InsertionOrdered(m.keys, attrs, i, parseAS, resolveRoutes)
        invariant forall k :: 0 <= k < i && attrs[k].attrType == Some(Export) ==>
          ExportPeers(attrs[k], parseAS).Success?
        invariant includedRouteMap == old(includedRouteMap)
      {
        var attr := attrs[i];
        if attr.attrType != Some(Export) {
          RouteMapStep(m, attrs, i, parseAS, resolveRoutes);
          continue;
        }
        var exportPeers := GetExportPeers(attr, parseAS);
        if exportPeers.Failure? {
          return Some(exportPeers.error);
        }
        m := PutPeerRoutes(m, attrs, i, exportPeers.value, parseAS, resolveRoutes);
        RouteMapStep(m, attrs, i, parseAS, resolveRoutes);
      }
      includedRouteMap := m;
      return None;
    }

    /**
     * getASOfPeer: the AS number of the first key, in insertion order, whose address is
     * `peerAddress`, or -1 when no key has that address.
     */
    method GetASOfPeer(peerAddress: string) returns (asn: int)
      requires Valid()
      ensures asn != -1 ==> asn >= 0 && includedRouteMap.Get(Peer(asn, peerAddress)) != {}
      ensures asn == -1 <==> forall i :: 0 <= i < |includedRouteMap.keys| ==>
        includedRouteMap.keys[i].address != peerAddress
      ensures asn != -1 ==> exists i ::
        && 0 <= i < |includedRouteMap.keys|
        && includedRouteMap.keys[i].address == peerAddress
        && asn == includedRouteMap.keys[i].asn
        && forall j :: 0 <= j < i ==> includedRouteMap.keys[j].address != peerAddress
    {
      var keys := includedRouteMap.keys;
      for i := 0 to |keys|
        invariant forall j :: 0 <= j < i ==> keys[j].address != peerAddress
      {
        if keys[i].address == peerAddress {
          return keys[i].asn;
        }
      }
      return -1;
    }

    /** toString: the as-name followed by the AS number in decimal, as "name (AS<n>)". */
    function ToString(): (s: string)
      ensures |s| >= |name| + 6
      ensures s[..|name|] == name && s[|name|..|name| + 3] == " (A" && s[|name| + 3] == 'S'
      ensures s[|s| - 1] == ')'
      ensures IsDecimal(s[|name| + 4..|s| - 1]) && DecimalValue(s[|name| + 4..|s| - 1]) == autNum
      ensures |s| == |name| + 6 || s[|name| + 4] != '0'
    {
      var digits := DecimalString(autNum);
      DecimalRoundTrip(autNum);
      var s := name + " (AS" + digits + ")";
      assert s[|name| + 4..|s| - 1] == digits;
      s
    }
  }
}
