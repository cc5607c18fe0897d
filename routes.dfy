/**
 * Route derivation: turning the cluster's node list into the ordered
 * sequence of routes (pod CIDR via internal address) that `getRoutes`
 * builds in main.go.
 */
module Routes {
  import opened Wrappers

  /** One entry of a node's `status.addresses`: its type and its value. */
  datatype NodeAddress = NodeAddress(addrType: string, address: string)

  /** The parts of a cluster node record that route derivation reads. */
  datatype Node = Node(name: string, podCIDR: string, addresses: seq<NodeAddress>)

  /** A route to one node's pod network through one of its addresses. */
  datatype Route = Route(destination: string, nexthop: string, nodeLabel: string)

  /** What listing the cluster's nodes gives back: an error, or the nodes in listing order. */
  datatype NodeList = ListFailed(reason: string) | Listed(nodes: seq<Node>)

  /** The only address type that yields a route. */
  const InternalIP: string := "InternalIP"

  /** The text `getRoutes` puts in front of the listing error it passes on. */
  const ListErrorPrefix: string := "Cannot list nodes: "

  predicate IsInternal(a: NodeAddress)
  {
    a.addrType == InternalIP
  }

  /** The route that address `a` of node `n` yields. */
  function RouteVia(n: Node, a: NodeAddress): Route
  {
    Route(n.podCIDR, a.address, n.name)
  }

  /** The routes yielded by the addresses `addrs` of node `n`, in address order. */
  function AddressRoutes(n: Node, addrs: seq<NodeAddress>): seq<Route>
  {
    if addrs == [] then []
    else
      var a := addrs[|addrs| - 1];
      AddressRoutes(n, addrs[..|addrs| - 1]) + (if IsInternal(a) then [RouteVia(n, a)] else [])
  }

  function NodeRoutes(n: Node): seq<Route>
  {
    AddressRoutes(n, n.addresses)
  }

  /** The routes yielded by a node list: node by node, each node's in address order. */
  function Derive(nodes: seq<Node>): seq<Route>
  {
    if nodes == [] then []
    else Derive(nodes[..|nodes| - 1]) + NodeRoutes(nodes[|nodes| - 1])
  }

  /** The route sequence `getRoutes` returns, whether or not listing failed. */
  function Desired(list: NodeList): seq<Route>
  {
    match list
    case ListFailed(_) => []
    case Listed(nodes) => Derive(nodes)
  }

  /**
   * `getRoutes`: on a listing error, no routes and the wrapped error;
   * otherwise one route per InternalIP address, appended in two nested loops.
   */
  method GetRoutes(list: NodeList) returns (routes: seq<Route>, err: Option<string>)
    ensures list.ListFailed? ==> routes == [] && err == Some(ListErrorPrefix + list.reason)
    ensures list.Listed? ==> routes == Derive(list.nodes) && err == None
  {
    if list.ListFailed? {
      return [], Some(ListErrorPrefix + list.reason);
    }
    var nodes := list.nodes;
    routes := [];
    var i := 0;
    while i < |nodes|
      invariant 0 <= i <= |nodes|
      invariant routes == Derive(nodes[..i])
    {
      var n := nodes[i];
      var j := 0;
      while j < |n.addresses|
        invariant 0 <= j <= |n.addresses|
        invariant routes == Derive(nodes[..i]) + AddressRoutes(n, n.addresses[..j])
      {
        var a := n.addresses[j];
        if a.addrType == InternalIP {
          routes := routes + [Route(n.podCIDR, a.address, n.name)];
        }
        assert n.addresses[..j + 1][..j] == n.addresses[..j];
        j := j + 1;
      }
      assert n.addresses[..j] == n.addresses;
      assert nodes[..i + 1][..i] == nodes[..i];
      i := i + 1;
    }
    assert nodes[..i] == nodes;
    err := None;
  }

  // ---------------------------------------------------------------------
  // An independent reference: enumerate every (node, address) pair in
  // listing order, keep the InternalIP ones, turn each into its route.
  // ---------------------------------------------------------------------

  function PairsOf(n: Node, addrs: seq<NodeAddress>): (ps: seq<(Node, NodeAddress)>)
    ensures |ps| == |addrs|
  {
    seq(|addrs|, j requires 0 <= j < |addrs| => (n, addrs[j]))
  }

  /** Every (node, address) pair of `nodes`, node by node, then address by address. */
  function Pairs(nodes: seq<Node>): seq<(Node, NodeAddress)>
  {
    if nodes == [] then []
    else PairsOf(nodes[0], nodes[0].addresses) + Pairs(nodes[1..])
  }

  /** The route of each InternalIP pair, in the order of `pairs`. */
  function InternalRoutes(pairs: seq<(Node, NodeAddress)>): seq<Route>
  {
    if pairs == [] then []
    else
      (if IsInternal(pairs[0].1) then [RouteVia(pairs[0].0, pairs[0].1)] else [])
      + InternalRoutes(pairs[1..])
  }

  lemma {:induction false} InternalRoutesAppend(p: seq<(Node, NodeAddress)>, q: seq<(Node, NodeAddress)>)
    ensures InternalRoutes(p + q) == InternalRoutes(p) + InternalRoutes(q)
  {
    if p != [] {
      assert (p + q)[0] == p[0];
      assert (p + q)[1..] == p[1..] + q;
      InternalRoutesAppend(p[1..], q);
    } else {
      assert p + q == q;
    }
  }

  lemma {:induction false} PairsAppend(nodes: seq<Node>, n: Node)
    ensures Pairs(nodes + [n]) == Pairs(nodes) + PairsOf(n, n.addresses)
  {
    if nodes == [] {
      assert nodes + [n] == [n];
      assert [n][1..] == [];
    } else {
      assert (nodes + [n])[0] == nodes[0];
      assert (nodes + [n])[1..] == nodes[1..] + [n];
      PairsAppend(nodes[1..], n);
    }
  }

  lemma {:induction false} AddressRoutesAsPairs(n: Node, addrs: seq<NodeAddress>)
    ensures AddressRoutes(n, addrs) == InternalRoutes(PairsOf(n, addrs))
  {
    if addrs != [] {
      var init := addrs[..|addrs| - 1];
      var a := addrs[|addrs| - 1];
      assert PairsOf(n, addrs) == PairsOf(n, init) + [(n, a)];
      AddressRoutesAsPairs(n, init);
      InternalRoutesAppend(PairsOf(n, init), [(n, a)]);
      assert [(n, a)][1..] == [];
    }
  }

  /**
   * Exactly one route per (node, address) pair whose type is InternalIP, in
   * node order and then address order; other addresses contribute nothing.
   */
  lemma {:induction false} DeriveIsInternalPairs(nodes: seq<Node>)
    ensures Derive(nodes) == InternalRoutes(Pairs(nodes))
  {
    if nodes != [] {
      var init := nodes[..|nodes| - 1];
      var n := nodes[|nodes| - 1];
      assert nodes == init + [n];
      DeriveIsInternalPairs(init);
      PairsAppend(init, n);
      AddressRoutesAsPairs(n, n.addresses);
      InternalRoutesAppend(Pairs(init), PairsOf(n, n.addresses));
    }
  }

  // ---------------------------------------------------------------------
  // Membership: which routes can appear at all.
  // ---------------------------------------------------------------------

  lemma {:induction false} AddressRoutesMembers(n: Node, addrs: seq<NodeAddress>, r: Route)
    ensures r in AddressRoutes(n, addrs) <==>
      exists j :: 0 <= j < |addrs| && IsInternal(addrs[j]) && r == RouteVia(n, addrs[j])
  {
    if addrs != [] {
      var init := addrs[..|addrs| - 1];
      AddressRoutesMembers(n, init, r);
      if exists j :: 0 <= j < |addrs| && IsInternal(addrs[j]) && r == RouteVia(n, addrs[j]) {
        var j :| 0 <= j < |addrs| && IsInternal(addrs[j]) && r == RouteVia(n, addrs[j]);
        if j < |addrs| - 1 {
          assert init[j] == addrs[j];
        }
      }
      if r in AddressRoutes(n, init) {
        var j :| 0 <= j < |init| && IsInternal(init[j]) && r == RouteVia(n, init[j]);
        assert addrs[j] == init[j];
      }
    }
  }

  /**
   * A route is derived if and only if some node has an InternalIP address
   * whose route it is: destination the node's pod CIDR, next hop that
   * address, label the node's name.
   */
  lemma {:induction false} DeriveMembers(nodes: seq<Node>, r: Route)
    ensures r in Derive(nodes) <==>
      exists i, j :: 0 <= i < |nodes| && 0 <= j < |nodes[i].addresses|
        && IsInternal(nodes[i].addresses[j]) && r == RouteVia(nodes[i], nodes[i].addresses[j])
  {
    if nodes != [] {
      var init := nodes[..|nodes| - 1];
      var last := |nodes| - 1;
      DeriveMembers(init, r);
      AddressRoutesMembers(nodes[last], nodes[last].addresses, r);
      if exists i, j ::
           0 <= i < |nodes| && 0 <= j < |nodes[i].addresses|
           && IsInternal(nodes[i].addresses[j]) && r == RouteVia(nodes[i], nodes[i].addresses[j])
      {
        var i, j :| 0 <= i < |nodes| && 0 <= j < |nodes[i].addresses|
          && IsInternal(nodes[i].addresses[j]) && r == RouteVia(nodes[i], nodes[i].addresses[j]);
        if i < last {
          assert init[i] == nodes[i];
        }
      }
      if r in Derive(init) {
        var i, j :| 0 <= i < |init| && 0 <= j < |init[i].addresses|
          && IsInternal(init[i].addresses[j]) && r == RouteVia(init[i], init[i].addresses[j]);
        assert nodes[i] == init[i];
      }
    }
  }

  // ---------------------------------------------------------------------
  // Fan-out: a node with k InternalIP addresses yields k routes, all with
  // its pod CIDR as destination; nothing is deduplicated.
  // ---------------------------------------------------------------------

  /** The number of InternalIP entries in `addrs`. */
  function CountInternal(addrs: seq<NodeAddress>): nat
  {
    if addrs == [] then 0
    else (if IsInternal(addrs[0]) then 1 else 0) + CountInternal(addrs[1..])
  }

  lemma {:induction false} CountInternalAppend(addrs: seq<NodeAddress>, a: NodeAddress)
    ensures CountInternal(addrs + [a]) == CountInternal(addrs) + (if IsInternal(a) then 1 else 0)
  {
    if addrs == [] {
      assert addrs + [a] == [a];
      assert [a][1..] == [];
    } else {
      assert (addrs + [a])[0] == addrs[0];
      assert (addrs + [a])[1..] == addrs[1..] + [a];
      CountInternalAppend(addrs[1..], a);
    }
  }

  lemma {:induction false} AddressRoutesFanOut(n: Node, addrs: seq<NodeAddress>)
    ensures |AddressRoutes(n, addrs)| == CountInternal(addrs)
    ensures forall r :: r in AddressRoutes(n, addrs) ==> r.destination == n.podCIDR && r.nodeLabel == n.name
  {
    if addrs != [] {
      var init := addrs[..|addrs| - 1];
      assert addrs == init + [addrs[|addrs| - 1]];
      AddressRoutesFanOut(n, init);
      CountInternalAppend(init, addrs[|addrs| - 1]);
    }
  }

  /**
   * A node yields exactly as many routes as it has InternalIP addresses,
   * and every one of them has the node's pod CIDR as destination and the
   * node's name as label.
   */
  lemma NodeFanOut(n: Node)
    ensures |NodeRoutes(n)| == CountInternal(n.addresses)
    ensures forall r :: r in NodeRoutes(n) ==> r.destination == n.podCIDR && r.nodeLabel == n.name
  {
    AddressRoutesFanOut(n, n.addresses);
  }

  // ---------------------------------------------------------------------
  // A stricter variant that skips empty pod CIDRs and empty addresses.
  // `getRoutes` does not do this; the variant is stated on its own and
  // related to what the code derives.
  // ---------------------------------------------------------------------

  predicate Usable(r: Route)
  {
    r.destination != "" && r.nexthop != ""
  }

  /** The routes of `routes` with a non-empty destination and next hop, in order. */
  function KeepUsable(routes: seq<Route>): seq<Route>
  {
    if routes == [] then []
    else KeepUsable(routes[..|routes| - 1]) + (if Usable(routes[|routes| - 1]) then [routes[|routes| - 1]] else [])
  }

  function StrictAddressRoutes(n: Node, addrs: seq<NodeAddress>): seq<Route>
  {
    if addrs == [] then []
    else
      var a := addrs[|addrs| - 1];
      StrictAddressRoutes(n, addrs[..|addrs| - 1])
      + (if IsInternal(a) && a.address != "" then [RouteVia(n, a)] else [])
  }

  /** Derivation that skips nodes without a pod CIDR and empty addresses. */
  function DeriveStrict(nodes: seq<Node>): seq<Route>
  {
    if nodes == [] then []
    else
      var n := nodes[|nodes| - 1];
      DeriveStrict(nodes[..|nodes| - 1])
      + (if n.podCIDR == "" then [] else StrictAddressRoutes(n, n.addresses))
  }

  lemma {:induction false} KeepUsableAppend(p: seq<Route>, q: seq<Route>)
    ensures KeepUsable(p + q) == KeepUsable(p) + KeepUsable(q)
  {
    if q == [] {
      assert p + q == p;
    } else {
      var init := q[..|q| - 1];
      assert (p + q)[..|p + q| - 1] == p + init;
      assert (p + q)[|p + q| - 1] == q[|q| - 1];
      KeepUsableAppend(p, init);
    }
  }

  lemma {:induction false} StrictAddressRoutesAreUsable(n: Node, addrs: seq<NodeAddress>)
    requires n.podCIDR != ""
    ensures StrictAddressRoutes(n, addrs) == KeepUsable(AddressRoutes(n, addrs))
  {
    if addrs != [] {
      var init := addrs[..|addrs| - 1];
      var a := addrs[|addrs| - 1];
      StrictAddressRoutesAreUsable(n, init);
      var tail := if IsInternal(a) then [RouteVia(n, a)] else [];
      KeepUsableAppend(AddressRoutes(n, init), tail);
      if tail != [] {
        assert tail[..0] == [];
      }
    }
  }

  /** The strict variant is exactly the code's derivation with unusable routes dropped. */
  lemma {:induction false} DeriveStrictIsUsableDerive(nodes: seq<Node>)
    ensures DeriveStrict(nodes) == KeepUsable(Derive(nodes))
  {
    if nodes != [] {
      var init := nodes[..|nodes| - 1];
      var n := nodes[|nodes| - 1];
      DeriveStrictIsUsableDerive(init);
      KeepUsableAppend(Derive(init), NodeRoutes(n));
      if n.podCIDR == "" {
        NoUsableWithoutPodCIDR(n, n.addresses);
      } else {
        StrictAddressRoutesAreUsable(n, n.addresses);
      }
    }
  }

  lemma {:induction false} NoUsableWithoutPodCIDR(n: Node, addrs: seq<NodeAddress>)
    requires n.podCIDR == ""
    ensures KeepUsable(AddressRoutes(n, addrs)) == []
  {
    if addrs != [] {
      var init := addrs[..|addrs| - 1];
      var a := addrs[|addrs| - 1];
      NoUsableWithoutPodCIDR(n, init);
      var tail := if IsInternal(a) then [RouteVia(n, a)] else [];
      KeepUsableAppend(AddressRoutes(n, init), tail);
      if tail != [] {
        assert tail[..0] == [];
      }
    }
  }

  // ---------------------------------------------------------------------
  // Concrete cases.
  // ---------------------------------------------------------------------

  /** One node with one InternalIP address yields exactly its route. */
  lemma SingleNodeScenario()
    ensures Derive([Node("n1", "10.1.0.0/24", [NodeAddress("InternalIP", "10.0.0.1")])])
         == [Route("10.1.0.0/24", "10.0.0.1", "n1")]
  {
  }

  /**
   * `getRoutes` does not skip a node whose pod CIDR is empty: it yields a
   * route with an empty destination, which only the strict variant drops.
   */
  lemma EmptyPodCIDRScenario()
    ensures Derive([Node("n1", "", [NodeAddress("InternalIP", "10.0.0.1")])])
         == [Route("", "10.0.0.1", "n1")]
    ensures DeriveStrict([Node("n1", "", [NodeAddress("InternalIP", "10.0.0.1")])]) == []
  {
  }
}
