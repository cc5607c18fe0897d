# k8s_external_routes: route reconciliation, modelled in Dafny

The program keeps an external routing daemon in step with a Kubernetes
cluster. It lists the cluster's nodes and derives one route per
`InternalIP` address of each node: the node's pod CIDR is reached through
that address. It renders the route list into a configuration file through
a template, then runs a reload script. Once started, it repeats the listing
on every tick of a timer. When the derived route list differs from the
current one, it replaces the current list and enacts it again.

The model has three modules, one per part of `main.go`:

- `Routes` (routes.dfy): nodes, addresses and routes as datatypes. `GetRoutes`
  is the nested append loop of `getRoutes`. It is proved against `Derive`, a
  specification function. The lemmas characterise `Derive` against an
  independent reference: enumerate all (node, address) pairs, keep the
  `InternalIP` ones, map each to its route.
- `Enactor` (enactor.dfy): `ConfigureRoutes` is the early-return pipeline of
  `configureRoutes`. It takes each external step's success as an input and
  returns the actions it attempted, plus the report its last log line gives.
- `Reconcile` (reconcile.dfy): the state machine of `main`. The pure part is
  `Init`, `Step` and `Run` over a `State` (the current routes and the history
  of enactments). The class `Reconciler` holds `currentRoutes` and the
  enactment log. Its `Tick` method updates them in place and is proved equal
  to `Step`.

`wrappers.dfy` holds the `Option` type used for Go's `error` results.

Where the intended design and `main.go` differ, the model follows `main.go`:

- A node whose pod CIDR is empty is not skipped, and neither is an empty
  address. The code emits a route with an empty destination or next hop
  (`Routes.EmptyPodCIDRScenario`). The skipping variant is `Routes.DeriveStrict`.
  It is proved equal to the code's result with the unusable routes removed.
- A failed listing inside the loop is not skipped (there is no `continue`).
  Its empty result is compared like any other listing, so it can replace the
  current routes with none and enact the empty set
  (`Reconcile.FailedListingActsAsEmpty`).
- Change detection is order-sensitive. The same routes in another order
  count as a change (`Reconcile.ReorderIsChange`).

## Model

| member | source | states |
|---|---|---|
| `Routes.GetRoutes` | main.go:51-79 | A failed listing gives no routes and the error "Cannot list nodes: " + reason. A successful listing gives no error, and the nested loops build exactly `Derive(nodes)` |
| `Routes.DeriveIsInternalPairs` | main.go:58-75 | The derived routes are exactly the routes of the (node, address) pairs whose type is `InternalIP`, in node order and then address order, one route per pair. Addresses of any other type contribute nothing |
| `Routes.DeriveMembers` | main.go:65-72 | A route is derived if and only if some node has an `InternalIP` address with destination = the node's pod CIDR, next hop = that address and label = the node's name |
| `Routes.NodeFanOut` | main.go:61-72 | A node with k `InternalIP` addresses yields exactly k routes. All of them have the node's pod CIDR as destination and the node's name as label, with no deduplication |
| `Routes.DeriveStrictIsUsableDerive` | main.go:58-75 | The variant that skips empty pod CIDRs and empty addresses equals the code's derivation with every route whose destination or next hop is empty removed |
| `Routes.SingleNodeScenario` | main.go:67-72 | Node n1 with pod CIDR 10.1.0.0/24 and InternalIP 10.0.0.1 yields exactly [10.1.0.0/24 via 10.0.0.1, label n1] |
| `Routes.EmptyPodCIDRScenario` | main.go:60-72 | A node with an empty pod CIDR still yields a route, with an empty destination. The strict variant yields none |
| `Enactor.ConfigureRoutes` | main.go:81-120 | The actions performed are the planned prefix of load, create, render, reload, and the report is the first failure or the reload outcome |
| `Enactor.StepRunsIffEarlierSucceed` | main.go:87-112 | The actions are a prefix of the pipeline. Step k is performed if and only if every earlier step succeeded, so the first failure stops everything after it |
| `Enactor.ReloadRunsIffAllSucceed` | main.go:87-112 | The reload script runs if and only if template loading, file creation and rendering all succeed |
| `Enactor.RenderBindsOnlyRoutes` | main.go:99-102 | A render, when it happens, has exactly one binding, "routes", bound to the full route sequence as given. It targets the config file, which was created before it |
| `Enactor.ReloadFailureOnlyReported` | main.go:112-119 | A failing reload takes the same actions as a succeeding one and only changes the report, which is a reload failure exactly when the first three steps succeeded |
| `Reconcile.ChangedIffSomePositionDiffers` | main.go:162 | Two route sequences count as unchanged if and only if they have the same length and are equal position by position |
| `Reconcile.ReorderIsChange` | main.go:162 | Two distinct routes listed in swapped order count as a change |
| `Reconcile.InitEnactsOnce` | main.go:147-152 | The initial listing is fatal if and only if it fails. Otherwise its routes become current and are enacted exactly once, unconditionally |
| `Reconcile.StepEnactsIffChanged` | main.go:157-166 | After a tick the listed routes are current. One enactment of exactly those routes is appended if and only if they differ from the previous current routes, and earlier enactments are kept |
| `Reconcile.StepIdempotent` | main.go:162-166 | A second tick that lists the same routes changes nothing and enacts nothing |
| `Reconcile.RepeatedTicksEnactAtMostOnce` | main.go:154-167 | Any number of ticks that all list the same routes enact once if those routes differ from the current ones, and never otherwise. Afterwards those routes are current |
| `Reconcile.UnchangedTicksEnactNothing` | main.go:154-167 | Ticks that list the routes already current leave the whole state unchanged |
| `Reconcile.RunKeepsConsistent` | main.go:162-166 | The last enactment is always of the current routes, and every sequence of ticks keeps it so |
| `Reconcile.FailedListingActsAsEmpty` | main.go:157-166 | A failed listing in the loop acts exactly like a listing of no nodes. When routes were current, they are replaced by none and the empty set is enacted |
| `Reconcile.NexthopChangeScenario` | main.go:157-166 | After starting with n1 via 10.0.0.1, a tick that lists n1 via 10.0.0.2 makes the new route current and enacts it in full |
| `Reconcile.Reconciler.Start` | main.go:147-152 | Returns no reconciler exactly when the initial listing fails. Otherwise its state is `Init` of that listing, which satisfies the invariant |
| `Reconcile.Reconciler.EnactCurrent` | main.go:152 | Appends one enactment of the current routes and leaves the current routes as they are |
| `Reconcile.Reconciler.Tick` | main.go:156-166 | Updates `currentRoutes` and the enactment log in place to exactly `Step` of the old state, and preserves the invariant |
| `Reconcile.Reconciler.Loop` | main.go:154-167 | Running the ticks in order leaves the state at `Run` of the old state and preserves the invariant |
| `Reconcile.RunAgent` | main.go:147-167 | Stops exactly when the initial listing fails. Otherwise the final state is `Run` over the ticks from `Init`, and the invariant holds |

## Left out

- `loadClient` (main.go:36-49): reading the kubeconfig file, parsing its YAML and building the Kubernetes client are file I/O and a foreign library. Node listing becomes the `NodeList` input: an error, or the nodes.
- Flag parsing and logger setup in `init` (main.go:122-133), the `debug` switch, and every log call, including the loop that logs each route at the start of `configureRoutes` (main.go:83-85). The final log line of `configureRoutes` is kept only as the `Report` value.
- Template parsing and rendering, `os.Create` and running the reload script (main.go:87-117) are opaque: each step's success is an input (`StepOutcomes`). What the rendered file contains, the file handle that is never closed, and the script's output are not modelled.
- Ticker timing (main.go:154): the loop is an explicit finite sequence of ticks. The wall-clock period and the endless loop are not modelled.
- Nil pointers behind `*n.Spec.PodCIDR`, `*a.Type`, `*a.Address` and `*n.Metadata.Name`: every field is an always-present string.
- The error text of a listing failure keeps only its reason. Go's `%v` formatting of the client's error is not modelled.
- Direct programming of the kernel routing table and route retraction on termination signals are not part of `main.go` and are not modelled.
