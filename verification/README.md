# Volts, modelled in Dafny

This project models the state machines, codecs and indexes at the core of Volts, a Go web and RPC framework, and proves
what they are for. `dafny verify dfyconfig.toml` checks it.

How to read it: code that changes state is a class or a method with loops, each proved equal to a function on values
(`WsSession.ReadMessage`, `RouteNodes.MatchNode`, `RegistryCache.UpdateState`, ...); the promises of the framework are
lemmas about those functions, over all inputs, all runs or all interleavings.

- **Route tree** (`Route*.dfy`). Pattern parser, mutable sorted tree, backtracking matcher with its shared parameter
  buffer, exact lookup, merging of trees, and discovery rounds that must not displace local routes. `RouteNodes`,
  `RoutePattern` and `RouteInsert` are the value level; `RouteTree`, `RouteParser`, `RouteMatcher`, `RouteTable`,
  `RouteCombine`, `RouteRuns` and `RouteStore` are the heap. Route objects are references, shared by the methods they
  are registered under; their handlers are in a table. `RouteFound` shows that registered patterns with variables are
  found, `RouteTypes` which texts a typed variable, an enumeration or an expression accepts, `RoutePriority` and
  `RouteCompound` who answers when a variable, a wildcard or a compound segment compete, `RouteTails` where a value ends
  in front of a text. `RouteFaults` says when matching panics or returns parameters of an abandoned branch,
  `RouteExamples` builds the trees that show it, and `RouteHandlers` says when a merge changes the handlers of other
  patterns.
- **WebSocket** (`Ws*.dfy`, RFC 6455). Frame codec with the three length forms and masking (sections 5.2 and 5.3),
  reassembly with interleaved control frames (sections 5.4 and 5.5), delivery from `WriteMessage` to the peer's
  `ReadMessage` (`WsDelivery`), close handshake with traffic in flight both ways
  (sections 5.5.1, 7.1 and 7.4.1).
- **RPC messages** (`Rpc*.dfy`). Bit-packed header, length-prefixed fields, metadata in any key order, streams.
- **Registry** (`Registry*.dfy`). The event-driven cache against the backend it mirrors, with events on their way, and
  the list of own registrations with its undo.
- **Handlers** (`HandlerChain.dfy`, `HandlerPool.dfy`). The re-entrant loop over a shared position against a description
  without a position; prototypes, initialisation and the pool of instances.
- **Connection pool** (`ConnPool.dfy`). All interleavings of the steps of `Get`, `Release` and `Close`.
- **Circuit breaker** (`Breaker.dfy`). Trips, cooldown in 64-bit arithmetic, purging, failing open.
- **Text algorithms**. Edit distance (`EditDistance.dfy`), token machine for JSON (`JsonTokens.dfy`), environment
  references (`EnvExpand.dfy`), language negotiation (`Negotiate.dfy`; compare section 3.4 of RFC 4647, the extension step
  is the framework's own).

Findings, each a lemma with the condition under which it happens:

- A request for `/x/` panics when only `/x/{id}` is registered (`RouteExamples.IdTreePanics`). On the last static node
  exactly `RouteFaults.ExhaustedStaticNode`; a node is guarded when it has a route, or no variant child comes before every
  child that takes the empty remainder. No request panics when all static nodes are guarded
  (`RouteFaults.GuardedTreeNeverPanics`), and where only nodes on patterns without variables may be unguarded, exactly when
  they are guarded, too (`RouteFaults.NeverPanicsExactly`).
- A variable at the end of its branch takes the whole rest of a request, further delimiters included, so that beside it a
  wildcard answers only what begins with a delimiter (`RoutePriority.DeepRequests`, exactly
  `RoutePriority.VariableOrWildcard`).
- A segment of two variables panics when nothing stands behind the separator (exactly `RouteCompound.CompoundAlone`), and
  never answers a single segment when its first variable is a pattern itself (`RoutePriority.NeverTheLonger`), though it
  does beside a variable of another name (`RouteCompound.CompoundOrSingle`).
- A variable in front of a delimiter is skipped: `/x/{id}/edit` answers `/x//edit`, without a parameter (exactly
  `RouteTails.VariableText`). For CONNECT values may hold slashes but no dots.
- Of `{n:[a-z]+]}`, `{n:[A-Za-z]+]}` and `{n:[0-9]+]}` the brackets are stripped at both ends, which makes them classes of
  letters of either case or digits (`RouteTypes.ClassesOnly`); without the second closing bracket they stay expressions
  (`RouteTypes.ExpressionsOnly`).
- Parameters of a route-less hit stay in front of the result (`RouteExamples.StaleTreeRegistered`). They never do when every
  wildcard and expression has a route (`RouteFaults.OwnParameters`), and they do behind a static chain whose empty
  remainder goes to one that has none (`RouteFaults.UnroutedTakerLeavesParameter`).
- Merging changes the handlers of other methods when a route object is registered for several
  (`RouteHandlers.OtherMethodChanges`, exactly `RouteHandlers.HandlersCombinedExactly`).
- The serialization type is only ever added to (`RpcHeader.SerializeGetAfterSet`).
- A node that changes its version stays cached under the old one (`RegistryCache.MovedNodeStays`,
  `RegistryCache.PutIsItsEvent`).
- A closed connection pool keeps collecting: exactly when a loan that did not fail is returned and the pool keeps any
  (`ConnPool.ReturnAfterClose`, over runs `ConnPool.ClosedUntilReturn`).
- A single failure does not trip the breaker again although the comment at selector/breaker.go:119-120 says so
  (`Breaker.OneFailureReopensExactly`); a purge releases open nodes under long caps (`Breaker.PurgeKeepsOpenExactly`).
- An empty JSON key is taken for no key, and an object under it makes later paths wrong (`JsonTokens.PathLost`,
  `JsonTokens.EmptyKeyObject`, exactly `JsonTokens.KeyFoundExactly`).
- `WriteControl` sends any number of close frames besides that of the handshake, and `WriteClose` any code
  (`WsRuns.RawThenClose`, exactly `WsRuns.AtMostOneCloseExactly` and `WsRuns.CodesValidExactly`).
- An initialisation that fails for a missing middleware leaves its work in the pooled instance, so the global middlewares
  run twice later (`HandlerPool.LateMiddleware`, exactly `HandlerPool.ChainRightExactly`).
- An over-long close reason uses up the only close frame (`WsClosing.WriteCloseExact`).
- The close code sent and the one reported differ for an ill-formed text and for a close without a status, and for
  nothing else (`WsCodes.CodesAgreeExactly`).

## Model

| member | source | states |
|---|---|---|
| RouteNodes.MatchNodeSound | router/tree.go:418-566 | When a search hits, the path splits along the chain of nodes down to the node returned: static text as registered, every recorded capture accepted by its node (type, enumeration or expression), a variant skipped at a delimiter contributes empty text and no parameter |
| RouteNodes.MatchKidsSound | router/tree.go:427-560 | The loop over the children returns only explained hits, whatever child it starts from |
| RouteNodes.ExplainsExtended | router/tree.go:427-560 | A child's explained hit, with the parent's own capture behind it, is explained from the parent |
| RouteNodes.ExplainedPieces | router/tree.go:418-566 | The static texts and captured values along the chain, joined, are exactly the request path |
| RouteNodes.ChildIndex | router/tree.go:828-829 | The first equal sibling is found if there is one, and none otherwise |
| RouteNodes.Descend | router/tree.go:280-296 | The node a parsed pattern leads to, level by level; its route is the one exact lookup finds |
| RouteNodes.EarlierChildrenMiss | router/tree.go:126-141 | Siblings sorted before the static node of a static pattern cannot match its text: sorting and uniqueness make the order harmless |
| RouteNodes.StaticKidsWin | router/tree.go:418-443 | Below any node, the text of a registered static pattern is matched by its own static chain |
| RouteNodes.StaticNodeWins | router/tree.go:418-443 | A static node that heads a registered static pattern hits on the text of that pattern and records nothing |
| RouteNodes.StaticRouteWins | router/tree.go:387-443 | Static routes win over variants, wildcards and expressions in one tree: the route found is the one bound to the pattern, with no parameters |
| RouteFaults.EmptyRemainder | router/tree.go:436-463 | On an empty remainder a node panics exactly when it is a variant and hits exactly when it is a wildcard or an expression that accepts the empty text |
| RouteFaults.ExhaustedStaticNode | router/tree.go:436-463 | A route-less static node whose text is all that is left panics exactly when a variant child comes before every child that takes the empty remainder |
| RouteFaults.GuardedNodeNeverFaults | router/tree.go:418-566 | No panic below a node all of whose static nodes have a route, or no variant child before every child that takes the empty remainder |
| RouteFaults.GuardedTreeNeverPanics | router/tree.go:387-416 | If every static node of the tree is so guarded, no request makes `Match` panic |
| RouteFaults.UnguardedChainPanics | router/tree.go:387-463 | Conversely, if a node that a pattern without variables leads to is not guarded, the text of that pattern makes `Match` panic |
| RouteFaults.NeverPanicsExactly | router/tree.go:387-566 | In a tree where only such nodes may be unguarded, no request panics exactly when all of them are guarded |
| RouteFaults.TrailingSlashPanics | router/tree.go:463 | In the tree that holds only `/x/{id}`, a request for `/x/` panics |
| RouteExamples.IdTreePanics | router/tree.go:217-254 | In every tree that registering `/x/{id}` first builds, a request for `/x/` panics |
| RouteExamples.FirstRoute | router/tree.go:569-590 | Registering a first acceptable route builds exactly the branch of its parsed pattern under each of its methods |
| RouteExamples.SecondRoute | router/tree.go:822-857 | Registering a second pattern whose first node is new and sorted behind the first builds exactly the two branches |
| RouteExamples.SpotsDecide | router/tree.go:854-857 | Trees with the same spots are equal where the order of all siblings is decided |
| RouteFaults.HitWithoutRoute | router/tree.go:444-566 | A hit on a node without a route ends in a wildcard or an expression and has recorded a parameter |
| RouteFaults.MatchParameters | router/tree.go:407-413 | The route found is the first routed hit among the children of the root; the parameters are those of the earlier route-less hits followed by its own captures |
| RouteFaults.RoutedHit | router/tree.go:444-566 | When every wildcard and expression has a route of its own, every hit ends in a node with a route |
| RouteFaults.OwnParameters | router/tree.go:387-416 | In such a tree every route found, on any request, comes with exactly the captures of its own hit behind the parameters given, and it is the first hit at all |
| RouteFaults.UnroutedTakerLeavesParameter | router/tree.go:407-463 | Conversely, behind a static chain to a route-less node, a route-less first child that takes the empty remainder is hit by the text of the chain, and whatever route is found in the end has its parameter in front |
| RouteFaults.StaleParameter | router/tree.go:407-413 | A tree in which a route-less hit leaves its parameter in front of the result |
| RouteExamples.StaleTreeRegistered | router/tree.go:217-254 | In every tree that registering `/a*` with `/z` and then `/{name}` builds, `/ab` is answered with the parameter of the abandoned branch in front |
| RouteExamples.BranchInserted | router/tree.go:569-590 | A branch of parsed nodes is exactly what inserting its pattern into a bare node gives |
| RoutePattern.CloseBracket | router/tree.go:604-660 | The end of a bracket lies behind its start and inside the pattern |
| RoutePattern.PatternKey | router/tree.go:660-735 | Whatever stands between brackets becomes a well-formed variant or expression node |
| RoutePattern.NextMove | router/tree.go:604-760 | Every turn of the scanner advances and keeps its indexes inside the pattern |
| RoutePattern.MoveKeysOk | router/tree.go:604-760 | Every node a turn of the scanner adds is well-formed: a static text holds the delimiter only as its first byte |
| RoutePattern.ParseKeysOk | router/tree.go:594-760 | Every node of every accepted pattern is well-formed |
| RoutePattern.StaticScan | router/tree.go:594-760 | A pattern without brackets and stars is cut at the delimiters, and the texts joined are the pattern |
| RoutePattern.StaticPattern | router/tree.go:594-760 | Such a pattern is always accepted and parses to static nodes only |
| RouteParser.ParsePath | router/tree.go:594-760 | The index loop that allocates the nodes produces, key by key and level by level, what the scanner specification says, and fails on the same patterns |
| RouteParser.LinkBracket | router/tree.go:660-745 | A variable node is appended, and the level of the first variable of a segment is settled when the segment ends |
| RouteParser.AssignLevel | router/tree.go:594-760 | Only the level of the given node changes |
| RouteInsert.RearrangedLookup | router/tree.go:854-857 | Sorting siblings changes no node and no lookup |
| RouteInsert.ReplaceChild | router/tree.go:826-852 | Inserting below one child is inserting below its parent: exactly the missing nodes of the pattern are new, with their levels, exactly the pattern is rebound, and the tree stays sorted with distinct siblings and variables apart |
| RouteInsert.AppendInserted | router/tree.go:826-857 | A pattern hung below a new child adds exactly its missing nodes and binds the pattern; every other node keeps its level and route |
| RouteInsert.BindInserted | router/tree.go:832-848 | At the last node the route is bound and nothing else changes |
| RouteInsert.GrownLookup | router/tree.go:569-590 | Inserting a pattern rebinds exactly this pattern |
| RouteInsert.GrownAgain | router/tree.go:217-254 | Inserting a pattern twice is inserting it once |
| RouteTree.SortNodes | router/tree.go:854-857 | Siblings come back as a sorted rearrangement of the same nodes |
| RouteTree.FindEqual | router/tree.go:799-830 | The first equal sibling, exactly when there is one |
| RouteTree.AddNodes | router/tree.go:569-590 | Linking a parsed chain adds exactly the nodes of the pattern that were missing, up to the order of siblings the whole tree; it binds exactly its pattern, keeps all heap invariants and the shape rules, and reports whether the pattern existed and which route it displaced |
| RouteTree.Reuse | router/tree.go:828-850 | An equal child is reused: the insertion goes on below it and its siblings stay |
| RouteTree.Append | router/tree.go:853-857 | A new branch is appended, sorted in, and carries the rest of the chain |
| RouteTree.ContinueAmong | router/tree.go:569-590 | Going on below one child leaves the other subtrees untouched on the heap |
| RouteTree.NodeLessOrder | router/tree.go:126-141 | The sort order is strict, and its complement is transitive |
| RouteMatcher.SearchNode | router/tree.go:418-566 | The recursion with the shared parameter buffer agrees with the search on values; a miss leaves the buffer as on entry and a hit adds its captures, deepest first |
| RouteMatcher.SearchChildren | router/tree.go:427-560 | The loop over the children agrees with the search on values |
| RouteMatcher.SearchChild | router/tree.go:430-560 | On a hit the capture of the parent follows the deeper ones, otherwise the buffer is cut back |
| RouteMatcher.ChildCut | router/tree.go:430-560 | Where the part of a child begins, branch by branch, or that the child is skipped |
| RouteTable.Tree.AddRoute | router/tree.go:217-254 | Under exactly the methods of the route the missing nodes of its pattern are added and the pattern is bound; a refused pattern changes nothing; accepted and refused patterns are characterised |
| RouteTable.Tree.RootFor | router/tree.go:569-579 | The root of a method is created on first use and no table entry changes |
| RouteTable.Tree.RouteOf | router/tree.go:263-300 | The heap descent finds the route bound to exactly this pattern |
| RouteTable.Tree.Match | router/tree.go:387-416 | The loop over the children of the root, with one shared buffer, agrees with matching on values |
| RouteTable.ValidNodes | router/tree.go:916-930 | A chain is accepted exactly when no two variable nodes touch |
| RouteTable.AddToRoot | router/tree.go:569-590 | Inserting under one method leaves the trees of the other methods alone |
| RouteTable.RunTable | router/tree.go:217-254 | After any run of registrations, in any order, the tree is the map from method and pattern to the route last accepted for it |
| RouteRuns.RegisterAll | router/tree.go:217-254 | Registering any list of routes in a loop is such a run, and the tree ends in its last table |
| RouteRuns.MixedRunTable | router/tree.go:217-364 | After any run of registrations and merges, every method and pattern has the route last registered for it, or where there was none the first one merged in |
| RouteRuns.StaticRoutesWinInMixedRuns | router/tree.go:387-443 | After any run of registrations and merges, a request for the text of a bound pattern without brackets and stars returns that route, with no parameters |
| RouteRuns.Assemble | router/router.go:271-280 | Every sequence of registrations and merges of separately built trees is such a run |
| RouteRuns.Apply | router/router.go:271-280 | One registration or merge is one step of the run, and the trees still to be merged stay sound and apart |
| RouteTable.StaticRoutesWinAfterAnyRun | router/tree.go:387-443 | After any run, a request for the text of an accepted pattern without brackets and stars returns the route last registered for it, with no parameters |
| RouteTable.RouteOfAfterAnyRun | router/tree.go:263-300 | Exact lookup returns the route last accepted for an equal pattern, for every HTTP method |
| RouteFound.BoundIsFound | router/tree.go:387-566 | In a guarded tree whose wildcards and expressions have routes, every request that instantiates a bound pattern finds a route: static texts as they are, variables and expressions that accept the rest of their segment, and at the end possibly a wildcard |
| RouteFound.NodeNotMissed | router/tree.go:418-566 | Whatever else hangs below it, a node does not miss a text that instantiates a pattern bound below it |
| RouteFound.CutFits | router/tree.go:427-560 | On such a text every branch of the search cuts exactly where the pattern does |
| RouteFound.NodesOfRun | router/tree.go:217-254 | After any run of registrations the nodes of the tree are exactly the beginnings of the accepted patterns |
| RouteFound.RegisteredIsFound | router/tree.go:387-416 | After any run in which patterns end with their wildcards and expressions, and what comes before a variable is a pattern itself: no request panics, and every request that instantiates an accepted pattern finds a route |
| RouteVariables.VariableAfter | router/tree.go:622-730 | A bracket that is a whole last segment behind a static prefix adds one node of level two to the prefix's own nodes |
| RouteVariables.WildcardAfter | router/tree.go:731-745 | A wildcard behind a static prefix adds one node of level minus one |
| RouteVariables.HungAlike | router/tree.go:418-443 | A chain of static nodes without routes answers as the children of its last node do on what is left |
| RouteVariables.RequestBelow | router/tree.go:387-443 | In a tree that is one such chain every request behind the prefix is answered by these children |
| RouteTypes.IntegersOnly | router/tree.go:671-677 | With only `p{n:int}` registered a request `p` followed by `s` finds it, with `n` bound to `s`, exactly when every character of `s` is between 0 and 9 |
| RouteTypes.LettersOnly | router/tree.go:671-677 | With only `p{n:string}`, exactly when every character is a letter between a and z or A and Z |
| RouteTypes.AnythingElse | router/tree.go:460-496 | With only `p{n}`, whenever `s` is not empty and does not begin with the delimiter, even if it holds further delimiters; an empty `s` panics |
| RouteTypes.ValuesOnly | router/tree.go:482-496 | With only an enumeration, exactly when `s` is one of its values; with a declared type, exactly when it is a value of that type |
| RouteTypes.ClassesOnly | router/tree.go:688-696 | Five expressions in square brackets are read as classes of digits or of letters, whatever type is declared, and those of letters accept both cases |
| RouteTypes.ExpressionsOnly | router/tree.go:698-706 | Any other expression answers exactly the segments that the expression library matches with `^(` and `)$` around it |
| RouteExamples.BracketAt | router/tree.go:628-640 | A bracket ends where its braces balance |
| RouteTypes.UnnamedExpression | router/tree.go:664-668 | A bracket that is only an expression does the same and binds its text to `var` |
| RoutePriority.VariableOrWildcard | router/tree.go:126-141 | With `p{n}` and `p*w` registered, in either order, every request behind `p` is decided: the variable takes the whole rest, the wildcard only one that begins with the delimiter, and an empty rest panics |
| RoutePriority.DeepRequests | router/tree.go:476-496 | With `/x/{id}` and a wildcard behind `/x/`, in either order: `/x/5/6` is answered by the variable with `5/6`, `/x//6` by the wildcard |
| RoutePriority.HungInserted | router/tree.go:822-857 | Inserting a pattern that leaves the prefix at its end hangs its branch beside the other one, in the order of siblings |
| RoutePriority.SecondBranch | router/tree.go:822-857 | Registering two patterns that go on differently behind a prefix builds exactly the chain of the prefix with both branches |
| RoutePriority.LevelsOfRun | router/tree.go:707-755 | After any run variables have a level of at least one and wildcards minus one |
| RoutePriority.VariableSibling | router/tree.go:126-141 | After any run no wildcard stands before a variable among siblings |
| RoutePriority.VariableFirst | router/tree.go:387-496 | After any run that accepted a variable behind `p`: a request whose rest is one segment that the variable accepts is answered neither by a wildcard behind `p` nor by a longer pattern that begins with the same variable |
| RoutePriority.NeverTheWildcard | router/tree.go:387-496 | After any run that accepted `p{n}`, whatever else it registered, no wildcard behind `p` answers `p` followed by one segment |
| RoutePriority.NeverTheLonger | router/tree.go:476-496 | Nor does a longer pattern that begins with `p{n}`, not even one that splits the segment |
| RouteCompound.CompoundAfter | router/tree.go:622-755 | Two variables in one segment become two nodes, the first of which has the level of both |
| RouteCompound.CompoundAlone | router/tree.go:497-528 | `p{a}sep{b}` alone splits a segment at the first separator, binding `b` and then `a`; without a separator nothing is found, and with nothing behind it the search panics |
| RouteCompound.CompoundOrSingle | router/tree.go:126-141 | With `p{c}` registered besides, in either order, the split comes first and the single variable answers the segments without a separator |
| RouteTails.VariableText | router/tree.go:497-528 | `p{n}` followed by a text, alone: the rest of a request is split at the first occurrence of the text, which must end it; the value holds no delimiter, a dot for CONNECT and a slash otherwise; in front of a delimiter the variable takes nothing and is no parameter |
| RouteTails.WildcardText | router/tree.go:444-458 | `p*w` followed by a text, alone: exactly the requests that end in the text are answered, with all before its last occurrence as the value |
| RouteTails.ExpressionText | router/tree.go:532-562 | An expression before a text ends at the first delimiter, or at the first occurrence of the text when there is none |
| RouteTails.MethodNames | router/tree.go:217-254 | A route is registered under its methods in upper case |
| RouteCombine.Conbine | router/tree.go:763-797 | Merging a subtree: every pattern of either side stays bound, an existing route staying where it is; the handlers of exactly the routes that met an incoming one are combined in place, once per pattern; the tree stays sorted and distinct |
| RouteCombine.MergeInto | router/tree.go:786-796 | The route and then every child of an equal node are merged, one after the other, and every pattern both have is met exactly once |
| RouteCombine.ConbineMethod | router/tree.go:354-361 | A method unknown so far shares the incoming root, a known one is merged; the bindings, though not the handlers, of the other methods stay |
| RouteCombine.ConbineTrees | router/tree.go:342-364 | For all trees the routed patterns of every method are the union of both, and the handler table is the old one after one combination per method and pattern that both trees bind |
| RouteHandlers.HandlersCombinedExactly | router/route.go:209-225 | Whatever the handlers are, a merge leaves every pattern the handlers its own two routes call for, exactly when no route object that meets an incoming one is bound under a further method or pattern, unless all of these meet the same replacing route |
| RouteHandlers.LeaksElsewhere | router/tree.go:786-791 | A route object that meets an incoming route under one pattern and none under another changes its handlers there too |
| RouteHandlers.CombinedTwice | router/route.go:209-225 | An object that meets the same incoming route twice, in front or behind, gets its handlers twice |
| RouteHandlers.DifferentMeets | router/route.go:209-225 | An object that meets two different incoming routes cannot have the handlers both patterns call for |
| RouteHandlers.OtherMethodChanges | router/tree.go:227-248 | `/a` registered for GET and POST, merged with `/a` registered for GET: POST runs the handler of the other route |
| RouteHandlers.MergeSharedRoute | router/tree.go:342-364 | The same with the trees and the handler table themselves |
| RouteCombine.NewChildLookup | router/tree.go:773-777 | A new child adds its own patterns and changes no other |
| RouteStore.Router.GenerateLocalHandler | router/handler.go:25-30 | A local handler gets an id no prototype has, so it never meets a proxy id |
| RouteStore.Router.RegisterLocal | router/group.go:659-669 | A route of the process itself is a new route object with a new local handler, bound under exactly its methods, or nothing is bound for a refused pattern |
| RouteStore.LocalIsServed | router/group.go:659-669 | Such a route is served locally under all its methods |
| RouteStore.ServeAndDiscover | router/router.go:771-884 | A new router, a route of its own and any rounds of discovery: the route still answers for its pattern |
| RouteStore.Router.GenerateProxyHandler | router/handler.go:259-281 | A proxy prototype is shared between refreshes and overwrites no other prototype |
| RouteStore.Router.LocalIdentity | router/router.go:667-690 | Exactly the ids and folded addresses of the own nodes; unknown exactly while nothing is registered locally |
| RouteStore.Router.ForwardNodes | router/router.go:695-751 | Exactly the nodes whose id and folded address no node of an own service has, and whose protocol is absent, empty, or http or https in any case of its letters, in their order |
| RouteStore.ForeignExactly | router/router.go:692-716 | An own id or an own address alone makes a node the own process |
| RouteStore.Router.HasLocalRoute | router/router.go:755-767 | True exactly when one of the methods has this very pattern with a handler that is, or may be, local |
| RouteStore.Router.StoreEndpoint | router/router.go:820-868 | Exactly one step: nothing is bound for CONNECT, a route that may be local or a refused pattern; otherwise the pattern is bound to a new proxy route under exactly its methods |
| RouteStore.Router.StoreService | router/router.go:810-884 | Every change is a route for an endpoint of a service with such a node; every endpoint of a service with one that asks for a route is, in the end, served locally or bound to a proxy route of this round; local routes stay |
| RouteStore.Router.Store | router/router.go:771-884 | The same for all services of one round, and nothing changes while the own identity is unknown |
| RouteStore.Router.StoreRounds | router/router.go:771-884 | Any number of rounds, each with its own services and own nodes, is a sequence of steps that keep the local routes |
| RouteStore.EndpointEffect | router/router.go:820-868 | One endpoint keeps all local routes, explains every change by its own proxy route, and settles that endpoint |
| RouteStore.SettledLasts | router/router.go:810-884 | What settled an endpoint is not undone by the endpoints and services stored after it |
| RouteStore.RoundsJoin | router/router.go:810-884 | A round over some services and the storing of one more are a round over all of them |
| RouteStore.ProxyKeepsLocals | router/router.go:857-867 | Binding a pattern that may not be local leaves every local route alone |
| RouteStore.LocalRoutesSurvive | router/router.go:771-884 | Over any number of rounds an HTTP pattern served by the process itself keeps its route and its handlers |
| WsFrames.MaskBytes | transport/websocket.go:565-571 | The payload is masked in place from the given phase, and the phase of the next chunk is returned |
| WsFrames.MaskInvolution | transport/websocket.go:565-571 | Masking twice with one key restores the payload |
| WsFrames.MaskChunks | transport/websocket.go:564-571 | Masking in chunks, each from the phase returned by the one before, masks the whole |
| WsFrames.LengthRoundTrip | transport/websocket.go:453-464 | Each of the three length forms is read back as the length written |
| WsFrames.HeaderDecoded | transport/websocket.go:195-250 | A frame with a clean header is decoded from its header bytes, extended length and remainder |
| WsFrames.FrameRoundTrip | transport/websocket.go:195-287 | Any acceptable frame, written by one role with any key, is read by the other as the same frame, and exactly its bytes are consumed |
| WsFrames.StreamRoundTrip | transport/websocket.go:195-287 | A concatenation of frames reads back as the same sequence |
| WsFrames.FrameLayout | transport/websocket.go:444-499 | Section 5.2 of RFC 6455, byte by byte: FIN and opcode, mask bit and length in seven bits, two or eight bytes, then the key and the payload under it |
| WsFrames.ReservedRefused | transport/websocket.go:201-222 | A frame with a reserved bit, or with an opcode other than 0, 1, 2, 8, 9 and 10, is refused right after its two header bytes |
| WsConn.Header | transport/websocket.go:445-477 | The fourteen-byte buffer holds flags, opcode, length form and key |
| WsConn.FrameBytes | transport/websocket.go:444-499 | The bytes written are the encoded frame; a client masks a copy, not the data of the caller |
| WsConn.Connection.WriteFrameLocked | transport/websocket.go:444-499 | Exactly one frame is appended to what was sent, and nothing else changes |
| WsConn.PeerReadsSent | transport/websocket.go:444-499 | What travels on the wire is exactly the frames sent: a peer that accepts each of them reads that sequence |
| WsConn.Connection.ReadFrame | transport/websocket.go:195-287 | Reading header, length and payload piece by piece agrees with the decoder, with the same refusals in the same order and the same close codes |
| WsConn.Connection.ReadLength | transport/websocket.go:225-244 | The extended length is read and checked against the sign bit |
| WsConn.Connection.ReadChecked | transport/websocket.go:246-268 | Control-frame, masking and limit checks come in this order, before any payload is read |
| WsConn.Connection.ReadPayload | transport/websocket.go:270-284 | Key and payload are read and unmasked, or the stream was too short |
| WsConn.Connection.ReadFull | transport/websocket.go:197-200 | A short stream is drained |
| WsConn.Connection.SetReadLimit | transport/websocket.go:164-169 | Zero and less restore the default limit |
| WsConn.Connection.WriteMessage | transport/websocket.go:406-411 | Control opcodes and closed connections are refused, else one final frame is sent |
| WsConn.Connection.WriteControl | transport/websocket.go:414-432 | Other opcodes, long payloads and closed connections are refused, else one frame is sent |
| WsConn.Connection.WriteClose | transport/websocket.go:502-515 | A close frame is attempted at most once |
| WsConn.Connection.HandleControl | transport/websocket.go:349-403 | A ping is answered, a pong ignored, a close handed on |
| WsConn.Connection.HandleClose | transport/websocket.go:368-401 | The close payload is checked for length, code and text, echoed and reported |
| WsConn.Connection.TakeData | transport/websocket.go:308-344 | A data frame starts, continues, completes or breaks a message |
| WsConn.Connection.ReadMessage | transport/websocket.go:291-346 | The reading loop with its buffer agrees with the value model, frame by frame |
| WsReassembly.Reassembles | transport/websocket.go:291-346 | For any split of a message, with pings and pongs anywhere between the fragments, the first opcode and the joined payload are returned, every ping is answered, and exactly those bytes are consumed |
| WsItems.ControlStep | transport/websocket.go:349-366 | A control frame inside a message leaves the reassembly state alone and a ping is answered with its payload |
| WsMessages.TakeDataCases | transport/websocket.go:308-344 | A data frame inside a message, or a continuation outside of one, is refused; over the limit means too big; everything else is taken |
| WsMessages.ReadKeepsFrag | transport/websocket.go:291-346 | Whatever the peer sends, the pending opcode is none, text or binary, none means an empty buffer, and the buffer stays within the limit |
| WsMessages.MessageIsSplit | transport/websocket.go:291-346 | A message is only returned for a complete, in-order split of it, of the same opcode, within the limit and well-formed if it is text |
| WsMessages.FrameReadExactly | transport/websocket.go:195-287 | A written frame is read back by the opposite role exactly when its opcode is legal and its payload within the limits |
| WsMessages.GotAcceptable | transport/websocket.go:195-287 | Only legal frames within the limits are accepted |
| WsClosing.WriteCloseExact | transport/websocket.go:502-515 | A close frame goes out exactly when none was attempted before, the connection is open and the reason has at most 123 bytes; a longer reason uses up the attempt |
| WsClosing.ReadMessageGrew | transport/websocket.go:291-403 | Reading, whatever arrives, sends at most one close frame, with a valid code, and none after one was sent; the bytes written are those of the frames sent |
| WsClosing.HandleCloseGrew | transport/websocket.go:368-401 | Every code the close handler puts on the wire is valid |
| WsRuns.ClosesOfRun | transport/websocket.go:291-562 | Over any run of any calls of the owner, against any peer, the close frames sent are the raw ones written through `WriteControl`, in their order, and among them at most one of the handshake; that one has a valid code, or is the frame of a `WriteClose` with a bad one |
| WsRuns.CloseFramesOfRun | transport/websocket.go:291-562 | At most one close frame is sent exactly when the raw ones and that of the handshake are together at most one; all codes are valid exactly when theirs are |
| WsRuns.AtMostOneCloseExactly | transport/websocket.go:406-515 | For any set of calls an owner allows itself: at most one close frame is ever sent, whatever the peer does, exactly when none of them writes a raw close frame |
| WsRuns.CodesValidExactly | transport/websocket.go:406-515 | And every code on the wire is valid exactly when none of them passes a bad one in a frame that can be sent |
| WsRuns.RawThenClose | transport/websocket.go:414-432 | A raw close followed by `WriteClose` puts two close frames on the wire |
| WsRuns.ActAccounts | transport/websocket.go:291-562 | Each call sends at most one close frame, raw or of the handshake, and the handshake sends none after its own |
| WsDelivery.MessageDelivered | transport/websocket.go:406-441 | A text or binary message that fits the peer's limit, written on an open connection, is read by the peer as exactly this message, and nothing else is consumed |
| WsDelivery.MessagesDelivered | transport/websocket.go:406-441 | Any list of messages is read in order, and then the reader goes on with what follows on the stream |
| WsDelivery.AllDelivered | transport/websocket.go:291-346 | With nothing behind them the reader delivers them all and waits at the end of the stream |
| WsDelivery.WrittenInFlight | transport/websocket.go:406-441 | What is written this way is traffic in flight for the close handshake |
| WsDelivery.WritesThenHandshake | transport/websocket.go:349-515 | Both sides write any messages and one of them closes: all messages of both arrive, both readers end with the code, and nothing is left on the wire |
| WsClosing.ReadsClose | transport/websocket.go:349-403 | A valid close frame is reported with its code and reason and echoed unless a close was already sent |
| WsClosing.ReceivedCodes | transport/websocket.go:368-401 | A peer may close with 1000 to 1003, 1007 to 1014 and 3000 to 4999; any other code is reported as 1002, which is also what is sent |
| WsHandshake.DrainsToClose | transport/websocket.go:291-403 | Whatever whole messages, with pings and pongs between their fragments, and control frames are ahead of a close frame, they are delivered and answered in order before the close is reported |
| WsHandshake.ControlsThenClose | transport/websocket.go:349-403 | Pings and pongs ahead of a close frame: every ping is answered, then the close is reported, and echoed unless one was sent |
| WsHandshake.CloseHandshake | transport/websocket.go:349-515 | When one side closes with messages and control frames in flight both ways, everything ahead of the close frames is delivered and answered, both readers end with that code, one close frame travels in each direction, and nothing is left to read |
| WsHandshake.SimultaneousClose | transport/websocket.go:349-515 | When both sides close at once with traffic in flight both ways and more behind, each delivers and answers what is ahead, reports the other's code and reason, and sends no second close |
| WsClosing.IllFormedTextCodes | transport/websocket.go:313-316 | An ill-formed text message closes with 1007 on the wire while the caller is told 1002 |
| WsCodes.CodesAgreeExactly | transport/websocket.go:291-403 | Whenever reading sends a close frame and reports a close error, the two codes agree exactly unless the frame completes an ill-formed text (1007 sent, 1002 reported) or is a close without a status (1000 sent, 1005 reported) |
| WsCodes.TooBigFrame | transport/websocket.go:264-268 | A frame over the read limit is refused before its payload is read, with 1009 on the wire |
| WsCodes.TooBigMessage | transport/websocket.go:328-332 | So is a message whose fragments go over the limit together, and what was collected is dropped |
| RpcHeader.FieldsDetermineBom | transport/message.go:60-85 | The header fields and the spare bit say everything: equal fields mean equal bytes |
| RpcHeader.HeaderLayout | transport/message.go:60-85 | Where every field is, in numbers: version and status are the halves of the second byte; the third holds two bits of message type, heartbeat, one-way, three bits of compression and a spare one; the sequence number comes last |
| RpcHeader.FlagsApart | transport/message.go:209-255 | The fields packed into the third byte do not disturb each other |
| RpcHeader.SerializeGetAfterSet | transport/message.go:258-265 | The serialization type read back is the one set exactly when the byte had no other bits |
| RpcHeader.Header.SetVersion | transport/message.go:166-168 | Only the version changes, to the low four bits given |
| RpcHeader.Header.SetStatus | transport/message.go:204-206 | Only the status changes, to the low four bits given |
| RpcHeader.Header.SetMessageType | transport/message.go:214-216 | Only the message type changes, to the low two bits given |
| RpcHeader.Header.SetHeartbeat | transport/message.go:224-230 | Only the heartbeat flag changes |
| RpcHeader.Header.SetOneway | transport/message.go:239-245 | Only the one-way flag changes |
| RpcHeader.Header.SetCompressType | transport/message.go:253-255 | Only the compression changes, to the low three bits given |
| RpcHeader.Header.SetSerializeType | transport/message.go:263-265 | The bits given are added to the serialization byte, and read back as given exactly when it had no other bits |
| RpcHeader.Header.SetSeq | transport/message.go:273-275 | Only the sequence number changes |
| RpcHeader.Header.Reset | transport/message.go:277-282 | Every field but the magic number is cleared |
| RpcMessage.FieldRoundTrip | transport/message.go:285-300 | A length-prefixed field is read back together with what follows it |
| RpcMessage.TakeFieldExact | transport/message.go:438-449 | A field is taken exactly when the data begins with an encoded field |
| RpcMessage.EncodeMetadata | transport/message.go:285-300 | The metadata is written with its keys in some order, each once |
| RpcMessage.MetaRoundTrip | transport/message.go:285-340 | Whatever the order of the keys, the metadata is read back as it was |
| RpcMessage.DecodeMetadata | transport/message.go:302-340 | The loop in 32-bit arithmetic never wraps, never reads outside the data and agrees with the grammar |
| RpcObject.Message.Encode | transport/message.go:343-384 | The buffer filled by offsets is the encoded message, for some key order |
| RpcObject.Layout | transport/message.go:350-383 | The precomputed offsets put every field directly behind the one before |
| RpcObject.Message.Decode | transport/message.go:387-502 | The message after the call, the error and the unread rest, including what an error leaves half changed |
| RpcObject.Message.DecodeBody | transport/message.go:453-502 | Fields are written into the message one after the other until one is malformed |
| RpcObject.Message.Reset | transport/message.go:515-520 | Header bytes, metadata, body and payload are cleared, the path and the magic number stay |
| RpcObject.Message.CloneTo | transport/message.go:505-512 | Header bytes are copied and the two service entries set, nothing else changes |
| RpcStream.MessageRoundTrip | transport/message.go:343-502 | A message within the limits, decoded on top of any message, gives the same header bytes, path, payload and metadata plus the two service entries, and consumes exactly its bytes |
| RpcStream.RoundTripExactly | transport/message.go:343-502 | The round trip holds exactly for messages with the magic number whose body fits the 32-bit length and the configured limit |
| RpcStream.MessageLayout | transport/message.go:343-384 | On the wire: the header, the length of all that follows, then path, service path, service method, metadata and payload, each behind its length in four big-endian bytes, and nothing else |
| RpcStream.MetadataLayout | transport/message.go:285-300 | The metadata field holds every key followed by its value, each as such a field |
| RpcStream.StreamOfMessages | transport/message.go:343-520 | Concatenated messages, read into one message that is reset before each, read back as the same list, for any key orders |
| RpcStream.BodyExact | transport/message.go:434-502 | A body is accepted exactly when it consists of five fields with readable metadata and an ignored tail, and the fields read are those slices |
| RpcStream.DecodeExact | transport/message.go:387-502 | A successful decode consumed one whole frame within the limit; on arbitrary bytes nothing else succeeds |
| RpcStream.OutcomesTold | transport/message.go:387-452 | How decoding ends on any bytes: a wrong magic number comes before everything else, then a stream too short for header and length, then a length over the limit, then a stream too short for the body; what is left unread is given each time |
| RpcStream.MetadataRefused | transport/message.go:453-502 | Behind four whole fields a body is refused for its metadata exactly when that is no list of pairs, and as malformed exactly when the payload field is missing |
| RpcStream.ClearedFields | transport/message.go:515-520 | A new message and one that is reset say nothing in their headers but the magic number; path and magic number stay, metadata, body and payload go |
| RegistryEntries.AppliedHolds | registry/registry_cacher.go:272-355 | An event about one node changes a grouped list under its own version and id only, and the list stays grouped: unique versions, unique ids, no empty version |
| RegistryEntries.CreateHolds | registry/registry_cacher.go:282-303 | Create and update put the node in place and keep all others |
| RegistryEntries.DeleteHolds | registry/registry_cacher.go:304-348 | Delete removes the node, its version with the last node, and the entry with the last version |
| RegistryEntries.MergedHolds | registry/registry_cacher.go:288-300 | Old nodes stay unless a new one has their id |
| RegistryEntries.EmptyHoldsNothing | registry/registry_cacher.go:235-262 | A grouped list is empty exactly when it holds no node |
| RegistryCacher.Cacher.Update | registry/registry_cacher.go:234-356 | The loops of an update produce the new list, its expiry, the invalidated full list and the kept entry under an error status |
| RegistryCacher.Cacher.Get | registry/registry_cacher.go:152-226 | A fresh list is returned as it is; else the answer of the backend is cached, or a stale list covers its failure |
| RegistryCacher.Cacher.Set | registry/registry_cacher.go:229-232 | List and expiry of one service are replaced |
| RegistryCacher.Cacher.Del | registry/registry_cacher.go:137-145 | Nothing is thrown away while an error status is set |
| RegistryCacher.GroupByVersion | registry/etcd/etcd.go:364-388 | The reference grouping: every registration is found under its version and id, and nothing else |
| RegistryCache.PutIsItsEvent | registry/etcd/watcher.go:56-82 | A registration changes the live nodes as its event says exactly when the node was not live under another version |
| RegistryCache.StepKeeps | registry/registry_cacher.go:152-356 | Registrations, removals, deliveries and lookups all keep every cached list behind the backend by exactly the events on their way |
| RegistryCache.CacheAgreesAfterAnyRun | registry/registry_cacher.go:152-356 | After any run, a cached service with no event on its way lists exactly the live nodes of the backend, grouped by version |
| RegistryCache.LookupAfterAnyRun | registry/registry_cacher.go:152-226 | After any run, a lookup with no event of the service on its way returns exactly its live nodes, or nothing exactly when the backend fails and nothing is cached |
| RegistryCache.AnswerLasts | registry/registry_cacher.go:107-226 | An answer that lists anything is given out unasked until its time is over; then the backend is asked again, and the old list covers its failure |
| RegistryCache.MovedNodeStays | registry/registry_cacher.go:264-303 | In any grouped list, a node that moves to another version while it lives stays cached under the old one, whatever other nodes and versions report |
| RegistryCache.LastNodeRemoved | registry/registry_cacher.go:137-145 | The event of the last node removes the entry exactly when no error status is set |
| RegistryCache.EventEffects | registry/registry_cacher.go:234-356 | What any event does to the entry it is about: create and update renew its expiry; delete does so for a listed version unless it removes the entry; override removes the entry of a listed version; an event without nodes removes it when it deletes; all others leave it alone |
| RegistryLocal.Registrations.TrackLocalService | registry/registry_cacher.go:668-697 | The newest registration of a name and version replaces the older one, and the undo is returned |
| RegistryLocal.Registrations.RestoreLocalService | registry/registry_cacher.go:676-697 | The undo changes only the entry it was made for, found by index or by identity |
| RegistryLocal.RestoreUndoesTrack | registry/registry_cacher.go:628-641 | A registration that fails leaves the list as it was |
| RegistryLocal.KeysStayUnique | registry/registry_cacher.go:668-740 | However late the undos come, there is at most one entry per name and version |
| RegistryLocal.DeregisterKeeps | registry/registry_cacher.go:727-740 | Deregistering keeps the entries apart |
| RegistryLocal.WithNodesOf | registry/registry_cacher.go:701-724 | Only own nodes are kept, in order; the own record is used when none is listed |
| HandlerChain.Handler.InvokeHandlers | router/handler.go:783-818 | The loop over the shared position, re-entered from inside its entries, does exactly what the position-free description of the chain says, and terminates |
| HandlerChain.Handler.Invoke | router/handler.go:821-830 | Calling on from inside an entry runs the rest of the chain, once |
| HandlerChain.Handler.RunEntry | router/handler.go:790-815 | An entry that is any finite script of calls and marks behaves as described |
| HandlerChain.EntriesStartOnceInOrder | router/handler.go:783-830 | Every entry starts at most once, in strictly increasing order, and all start if the request is never done |
| HandlerChain.MarkedIsDone | router/handler.go:783-830 | No entry starts once the request is marked as done |
| HandlerChain.ChainNests | router/http.go:160-162 | What an entry hands on to ends before the entry itself does |
| HandlerPool.Handler.Init | router/handler.go:492-709 | The chain of an instance is the supported part of global middlewares, own chain, entries of the controller fields and core, and initialising twice changes nothing; at a field whose middleware is not registered it panics and leaves what it had built |
| HandlerPool.Slot.Acquire | router/router.go:611-630 | A request gets an instance nobody else holds, which is not the prototype; its chain follows from the prototype and the failures of this instance; a failed initialisation puts it back as it is |
| HandlerPool.ChainRightExactly | router/handler.go:492-709 | The chain of an instance is that of its prototype exactly when no initialisation of it failed, or the failures left neither a global middleware nor the entry of a field |
| HandlerPool.RunsOn | router/handler.go:871-925 | Wherever it stands in the list, a middleware runs on a transport exactly when it is for both sides, for this side, or names this transport or none |
| HandlerPool.FieldRuns | router/handler.go:554-630 | Wherever it stands, a field of the controller adds an entry exactly when it holds a middleware of its type that the configuration does not block |
| HandlerPool.LateMiddleware | router/router.go:611-630 | A middleware registered after the first request: the second request runs the global middleware twice |
| HandlerPool.Slot.Get | router/handler.go:418-437 | A pooled instance is popped, whether it is initialised or not, else the prototype is cloned |
| HandlerPool.Slot.Release | router/handler.go:439-467 | An instance comes back reset, whether it is initialised or not, and the pool stays free of duplicates |
| HandlerPool.InitTwiceDoubles | router/handler.go:270-281 | Using a finished instance as a prototype puts the global middlewares in front again; it does no harm exactly when there are none |
| HandlerPool.KeepSupported | router/handler.go:690-707 | The filter keeps exactly the entries that support the transport |
| ConnPool.StepKeeps | internal/pool/default.go:46-151 | Every step of every thread keeps the conservation invariant, and a closed connection stays closed |
| ConnPool.OnePlace | internal/pool/default.go:85-151 | A connection dialled is idle at one position of the bucket of its own key, or held by one thread, or on loan, or closed, and never two of these |
| ConnPool.PoolConserves | internal/pool/default.go:46-151 | In every interleaving connections are conserved, no bucket exceeds its size and no closed connection is on loan |
| ConnPool.ReturnAfterClose | internal/pool/default.go:133-151 | The pool does not remember that it was closed: a loan returned afterwards is idle again exactly when it did not fail and the pool keeps any |
| ConnPool.IdleAgainExactly | internal/pool/default.go:85-151 | Where nothing is idle, a step makes a connection idle exactly when it returns a loan that did not fail to a pool that keeps any |
| ConnPool.ClosedUntilReturn | internal/pool/default.go:46-151 | In every interleaving after a close, nothing is idle until such a return |
| ConnPool.Connections.Get | internal/pool/default.go:85-130 | Run by one thread: the newest live connection is returned, every newer one is closed, and one is dialled when none is alive |
| ConnPool.Connections.Release | internal/pool/default.go:133-151 | A failed connection or one too many is closed, any other goes back to its bucket |
| ConnPool.Connections.Close | internal/pool/default.go:46-56 | All idle connections are closed and forgotten |
| EditDistance.EditDistanceOf | config/lint.go:230-251 | The two-row program returns the length of a shortest chain of single insertions, deletions and substitutions: some chain is that short and none is shorter |
| EditDistance.NextRow | config/lint.go:239-249 | One row from the row before |
| EditDistance.ShortChain | config/lint.go:230-251 | Some chain of single edits is as short as the distance |
| EditDistance.NoShorterChain | config/lint.go:230-251 | No chain of single edits is shorter than the distance |
| EditDistance.Symmetric | config/lint.go:230-251 | The distance is symmetric |
| EditDistance.Triangle | config/lint.go:230-251 | The distance satisfies the triangle inequality |
| EditDistance.Nearest | config/lint.go:196-221 | For any order of the known keys: a closest key of the same parent, exactly when one is within the limit |
| EditDistance.SplitLast | config/lint.go:223-228 | A path is its parent and its leaf joined by the last dot |
| JsonTokens.LeafOffsets | config/origin.go:182-267 | The loops over the tokens agree with the token machine, wherever the stream ends |
| JsonTokens.MachineFindsLeaves | config/origin.go:182-274 | On the tokens of an object without empty keys, exactly the leaves of the recursive definition are found |
| JsonTokens.MembersRun | config/origin.go:200-263 | The members of a nested object add exactly its leaves and leave path and depth as they were |
| JsonTokens.SkipValue | config/origin.go:224-241 | Inside an array every value is skipped |
| JsonTokens.LastLeafWins | config/origin.go:186-267 | A path is found exactly when some leaf has it, with the position of the last such key in the document |
| JsonTokens.PathsAreLower | config/origin.go:269-274 | Paths are in lower case, with dots between their elements |
| JsonTokens.KeyFoundExactly | config/origin.go:200-263 | After any members with keys, one more member of any kind is recorded as it should be exactly when its key is not empty or it is an object without leaves |
| JsonTokens.EmptyKeyObject | config/origin.go:201-216 | Behind an empty key an object adds its leaves to the path around it, and the path loses its last element |
| JsonTokens.PathLost | config/origin.go:201-216 | In `{"x":{"":{},"y":1}}` the position of `x.y` is recorded under `y` |
| EnvExpand.ExpandString | config/env.go:112-145 | The scan agrees with the description by pieces, including the shortcut for strings without references, and fails with the first reference that cannot be resolved |
| EnvExpand.PiecesCoverString | config/env.go:117-144 | Every byte belongs to exactly one piece, so text outside references, runs of dollars and unclosed references are copied as they are |
| EnvExpand.NothingToExpand | config/env.go:113-115 | A string without an opening is returned unchanged |
| EnvExpand.EscapeThenExpand | config/env.go:112-145 | Escaping and expanding undo each other, whatever the environment |
| EnvExpand.ReferenceExpands | config/env.go:147-163 | A reference becomes the value of the variable, even an empty one, or else the text behind the first `:-`; spaces around the name do not count; with neither, expanding fails with the name |
| EnvExpand.NamelessReference | config/env.go:147-152 | A reference without a name is refused, with a default or without |
| Breaker.CooldownIs | selector/breaker.go:92-115 | The cooldown doubles with every trip up to the cap |
| Breaker.NoOverflowExactly | selector/breaker.go:110-115 | The doubling stays positive in 64 bits, for every base and number of trips, exactly when the cap is at most 2^62 |
| Breaker.Cooldown | selector/breaker.go:110-115 | The doubling loop computes that cooldown |
| Breaker.TripsCountThresholds | selector/breaker.go:74-124 | From a state without failures and trips, any failures give as many trips as thresholds they fill, and the last trip sets the time until which the node stays open |
| Breaker.RecoversFully | selector/breaker.go:74-124 | After any history, a success makes the node available at once, and then, whatever else is marked, purged or reset, only its failures since count: trips and failures are their number divided by the threshold and the remainder, and it is open from the last trip for the base doubled per trip up to the cap |
| Breaker.FailuresSince | selector/breaker.go:74-165 | While only failures concern a node, its entry is exactly what these failures make of it |
| Breaker.RecoveryInput | selector/breaker.go:79-85 | Threshold three, ten seconds, cap two minutes: after three failures, a success and three failures the node is open for the base cooldown only |
| Breaker.DefaultDurations | selector/breaker.go:98-108 | The first trip keeps a node open for the cooldown, ten seconds by default, but not longer than the cap; without a cap later trips are no longer |
| Breaker.OneFailureReopensExactly | selector/breaker.go:117-121 | After a trip one more failure trips again exactly when the threshold is one, contrary to the comment in the source |
| Breaker.KeysDiffer | selector/breaker.go:60-62 | Keys tell nodes apart as long as service names do not hold the separator |
| Breaker.Tracker.Mark | selector/breaker.go:74-124 | Exactly one entry changes, as one failure or success; the tracker stays the outcome of the calls made so far |
| Breaker.PurgeKeepsOpenExactly | selector/breaker.go:149-165 | Over every run of marks, purges and resets under given configurations: no purge makes an open node available, exactly when each configuration has the breaker off or a cap at most a nanosecond above the lifetime of an entry |
| Breaker.OpenWithinCap | selector/breaker.go:74-165 | After any run no entry was seen in the future, and no node is open longer after its last mark than the largest cap in use |
| Breaker.LongCapReleases | selector/breaker.go:149-165 | For every configuration with a longer cap: a run of failures after which a purge releases the open node |
| Breaker.Tracker.Purge | selector/breaker.go:149-165 | Exactly the stale entries go, at most once per interval; the tracker stays the outcome of the calls made so far |
| Breaker.ResetExactly | selector/breaker.go:137-145 | A reset removes exactly the entries of its service, or all of them when none is named |
| Breaker.Tracker.Reset | selector/breaker.go:137-145 | Exactly the entries of the service go, or all; the tracker stays the outcome of the calls made so far |
| Breaker.Tracker.FilterHealthy | selector/breaker.go:178-208 | The two loops with their counters produce the described list |
| Breaker.FilterKeepsAvailable | selector/breaker.go:178-208 | Exactly the available nodes are kept, in order, or everything when there is none; a list with a node never becomes empty |
| Negotiate.Parse | router/middleware/accept_language/accept_language.go:52-91 | The accepted parts of the header, refused and empty ones left out, in stable descending order of quality |
| Negotiate.WeightRead | router/middleware/accept_language/accept_language.go:62-89 | Among the parameters of a language the first `q=` counts, in either case and with spaces around it; one that is no number counts as 1, and one of zero or less refuses the language |
| Negotiate.WeightMissing | router/middleware/accept_language/accept_language.go:62-89 | Without one the language counts as 1 |
| Negotiate.SortStable | router/middleware/accept_language/accept_language.go:90 | A descending arrangement that keeps the order of equal qualities |
| Negotiate.OneStableOrder | router/middleware/accept_language/accept_language.go:90 | There is only one such arrangement |
| Negotiate.Level | router/middleware/accept_language/accept_language.go:120-131 | The first equal language, else the first that extends the tag at a subtag boundary |
| Negotiate.Truncate | router/middleware/accept_language/accept_language.go:119-137 | The longest cut of the tag that matches anything decides |
| Negotiate.Negotiated | router/middleware/accept_language/accept_language.go:105-140 | The earliest preference that matches at all decides, at its longest matching cut, an exact match before an extension; empty exactly when none matches |
| Negotiate.ChosenOnce | router/middleware/accept_language/accept_language.go:105-140 | The description fixes the choice: one answer for given preferences |
| Negotiate.SameLanguage | router/middleware/accept_language/accept_language.go:168-170 | Two spellings are one language exactly when they are equal letter by letter, in either case, with hyphens and underscores alike |

## Left out

Library code and the environment:

- UTF-8 validity, regular expressions, address folding, the content hash of proxy handlers, environment lookup and
  number parsing are uninterpreted functions.
- Upper- and lower-casing and trimming are those of ASCII text; a `char` stands for one byte outside the codecs.
- Sockets, TLS, deadlines and write errors: the wire is a byte sequence, and what is written arrives.
- `sort.Sort` is any sorting: the proofs use only that the result is a sorted rearrangement, and `sort.SliceStable` only
  that it is stable and descending, which fixes it.
- Times are integers, `time.Now` is a parameter, and qualities are rationals, so NaN does not occur.
- Log lines, metrics and the size of buffers.

Route tree:

- RouteTable.StaticRoutesWinAfterAnyRun: HTTP methods only, because every pattern is registered with the delimiter `/`
  while CONNECT requests are split at `.`.
- RouteTable.RouteOfAfterAnyRun: HTTP methods only, for the same reason.
- RouteFaults.NeverPanicsExactly: nodes below a variable, an expression or a wildcard are guarded; whether a request gets to
  an unguarded one of these depends on the expressions, and RouteFaults.ExhaustedStaticNode is exact at the node itself.
- RouteFound.BoundIsFound: wildcards at the end of a pattern only; one in the middle takes as much text as it can, so that
  what follows may be missed. Which route is found when several patterns fit is fixed for static patterns, and for variables
  against wildcards and longer patterns behind the same prefix.
- RouteTypes.ExpressionsOnly: expressions whose braces are balanced; otherwise the bracket ends somewhere else.
- RoutePriority.NeverTheWildcard: prefixes that end at a delimiter and rests of one segment; with more segments the answer
  depends on whether the variable has children, as RoutePriority.VariableOrWildcard and RouteFound.RegisteredIsFound show.
- `DelRoute` and `delNode`: deleting repeats in a loop what the recursion already did, so there is no clean contract.
- The route counter and the hook for replaced routes: `RouteTree.AddNodes` reports what was displaced instead.
- RouteHandlers.HandlersCombinedExactly: trees whose incoming routes are not themselves met routes of the main tree; trees
  that already share a route object combine it with itself.
- Handler lists are values: a slice with spare capacity that is shared between two routes is not modelled.
- The loop of `addNodes` is written as a recursion over the levels, so that each ancestor's ghost value is brought up to
  date on return; `addNode` is its body.
- The delimiter check that panics in `Conbine`: all trees here use one delimiter. Hooked insertion is not reachable from
  `AddRoute`.
- Nil services and nil nodes in discovery results, and the warning about shielded endpoints.

WebSocket:

- WsHandshake.CloseHandshake: what is in flight are whole messages and control frames, all within the read limits; a peer
  that closes in the middle of its own fragmented message is covered by WsRuns.CloseFramesOfRun only.
- Custom ping, pong and close handlers; concurrent writers, whose frames are serialised by a lock; the handshake that
  precedes the connection.
- WsReassembly.Reassembles: the read limit admits the control frames too, and the connection is not closed by its owner
  meanwhile.

- WsDelivery.MessageDelivered: the reader has no fragment pending, and messages are text or binary, as the comment at
  transport/websocket.go:405 asks.

RPC messages:

- RpcStream.MessageRoundTrip: bodies below 4 GiB within the configured limit, which RpcStream.RoundTripExactly shows to be
  necessary.
- A message whose header map is nil, and payload slices that share memory with the body.

Registry:

- RegistryCache.CacheAgreesAfterAnyRun: events arrive in order and without loss, carry one node each, and a lookup sees the
  backend at one moment; a node keeps its version while it lives, which is necessary by RegistryCache.PutIsItsEvent.
- RegistryCacher.GroupByVersion: the metadata and endpoints of a version are those of its first registration and are not
  compared.
- Jitter, back-off and restart of the watcher, the single-flight group, the full service list and the endpoint index.
- Lists are values: what `Copy` protects from aliasing cannot happen here.
- `Merge` of the registry helpers repeats unmatched old entries for every new one, so it has no meaningful contract.

Handlers:

- Entries are finite scripts of calling on, marking done and other work; panics and wrong context types are not modelled.
- How reflection finds the fields of a controller: they are given with the names of their middlewares. A function whose
  signature is not supported, and the sharing of middleware objects between clones; the pool is modelled for one
  handler id, with its stack never expiring.

Connection pool:

- Dial options are folded into the key; a caller releases each loan once and names the key it was lent under.

Circuit breaker:

- Breaker.RecoversFully: service names without the separator, as in Breaker.KeysDiffer, and the failures of the node under
  one configuration.
- The counters are unbounded, marks on one node do not overlap, and the clock does not run backwards.

Configuration and negotiation:

- JsonTokens.MachineFindsLeaves: objects without empty keys; JsonTokens.KeyFoundExactly shows what an empty key at the end
  of a document does, where the positions of leaves grow along the document, and JsonTokens.EmptyKeyObject at any depth.
- Turning offsets into line numbers, reflection over configuration structs, and `hasEnvRef`.
- The framework's option setters, CORS, CSRF, cookies, static files, templates and OpenAPI.
