/** The primary node's coordinator of one atomic cache update: it maps every
    written key to a lazily created update request per backup or near-reader
    node (a backup is never the local node), sends the requests, counts one
    acknowledgement per mapped node (an ack, a node-left event or a failed send, whichever
    comes first, guarded by a one-shot flag on the request), and completes
    when the count reaches the number of mappings. Completion takes effect
    once; the caller's completion callback fires once, when the requests are
    sent unless the write mode is FULL_SYNC, in which case when the future
    completes. Threads are not modelled: events arrive one after the other in
    any order. */
module DhtUpdateFutures {
  import opened Common

  /** A continuous-query closure registered on the future; opaque. */
  type ClosureId = int

  /** What the future is built from: the local node, the near request's write
      mode and topology version and the three flags `waitForExchange` is
      derived from. */
  datatype Config = Config(
    localNodeId: NodeId,
    fullSync: bool,
    topologyLocked: bool,
    fastMap: bool,
    clientRequest: bool,
    topVer: int)

  /** `waitForExchange`, set by the constructor. */
  predicate WaitForExchange(c: Config)
  {
    !(c.topologyLocked || (c.fastMap && !c.clientRequest))
  }

  /** `completeFuture(topVer)`: whether the future must be waited for before
      the exchange to topology version topVer can finish. */
  function CompleteFuture(c: Config, topVer: int): (waits: bool)
    ensures c.topologyLocked || topVer <= c.topVer ==> !waits
    ensures c.fastMap && !c.clientRequest ==> !waits
  {
    WaitForExchange(c) && c.topVer < topVer
  }

  /** An exchange to a version no newer than the request's, or a request
      mapped on a locked topology, never waits for the future; a future
      waited for at one version is waited for at every later one. */
  lemma CompleteFutureMonotone(c: Config, topVer: int, later: int)
    requires topVer <= later
    ensures topVer <= c.topVer ==> !CompleteFuture(c, topVer)
    ensures c.topologyLocked ==> !CompleteFuture(c, topVer)
    ensures CompleteFuture(c, topVer) ==> CompleteFuture(c, later)
  {
  }

  // -----------------------------------------------------------------------
  // Requests

  /** The arguments of `addWriteEntry` that travel to a backup (the entry
      processor is left out). */
  datatype WriteEntry = WriteEntry(
    key: Key,
    val: Option<Value>,
    ttl: int,
    conflictExpireTime: int,
    conflictVer: Option<Version>,
    addPrevVal: bool,
    prevVal: Option<Value>,
    updateCntr: int)

  /** The arguments of `addNearWriteEntries` that travel to a near reader. */
  datatype NearWriteEntry = NearWriteEntry(key: Key, val: Option<Value>, ttl: int, expireTime: int)

  /** An entry added to the requests of several nodes. */
  datatype Entry = Write(write: WriteEntry) | Near(near: NearWriteEntry)

  /** A DHT update request to one node: the entries it carries and its
      one-shot response flag. */
  datatype UpdateRequest = UpdateRequest(
    nodeId: NodeId,
    entries: seq<WriteEntry>,
    nearEntries: seq<NearWriteEntry>,
    responded: bool)

  function NewRequest(n: NodeId): UpdateRequest
  {
    UpdateRequest(n, [], [], false)
  }

  /** `addWriteValue` / `addNearWriteValue` on a request. */
  function Append(r: UpdateRequest, a: Entry): UpdateRequest
  {
    match a
    case Write(w) => r.(entries := r.entries + [w])
    case Near(nw) => r.(nearEntries := r.nearEntries + [nw])
  }

  /** `onResponse()`: true the first time only. */
  function OnResponse(r: UpdateRequest): (UpdateRequest, bool)
  {
    (r.(responded := true), !r.responded)
  }

  /** The one-shot flag fires once: a second response reports false and
      changes nothing, and a response changes nothing but the flag. */
  lemma OnResponseOnce(r: UpdateRequest)
    ensures OnResponse(r).1 <==> !r.responded
    ensures OnResponse(r).0.responded
    ensures OnResponse(OnResponse(r).0) == (OnResponse(r).0, false)
    ensures OnResponse(r).0.(responded := r.responded) == r
  {
  }

  // -----------------------------------------------------------------------
  // Mappings

  /** The request mapped to n, or the one that would be created for it. */
  function Get(m: map<NodeId, UpdateRequest>, n: NodeId): UpdateRequest
  {
    if n in m then m[n] else NewRequest(n)
  }

  /** Whether node n gets the entry: a write entry goes to every node of the
      partition but the local one; a near entry goes to a reader that is
      already mapped or that discovery still knows (alive). */
  predicate Eligible(c: Config, m: map<NodeId, UpdateRequest>, n: NodeId, a: Entry, alive: set<NodeId>)
  {
    if a.Write? then n != c.localNodeId else n in m || n in alive
  }

  /** One iteration of the loops of `addWriteEntry` / `addNearWriteEntries`. */
  function AddEntry(c: Config, m: map<NodeId, UpdateRequest>, n: NodeId, a: Entry, alive: set<NodeId>): map<NodeId, UpdateRequest>
  {
    if Eligible(c, m, n, a, alive) then m[n := Append(Get(m, n), a)] else m
  }

  /** The whole loop over nodes, in order. */
  function AddEntryToAll(c: Config, m: map<NodeId, UpdateRequest>, nodes: seq<NodeId>, a: Entry, alive: set<NodeId>): map<NodeId, UpdateRequest>
    decreases |nodes|
  {
    if nodes == [] then m
    else AddEntry(c, AddEntryToAll(c, m, nodes[..|nodes| - 1], a, alive), nodes[|nodes| - 1], a, alive)
  }

  /** Nodes whose request has had its response. */
  function Responded(m: map<NodeId, UpdateRequest>): set<NodeId>
  {
    set n | n in m && m[n].responded
  }

  predicate Distinct(nodes: seq<NodeId>)
  {
    forall i, j :: 0 <= i < j < |nodes| ==> nodes[i] != nodes[j]
  }

  /** Adding entries never removes a mapping, never changes a response flag
      and creates requests that have not responded yet. */
  lemma {:induction false} AddEntryToAllKeeps(c: Config, m: map<NodeId, UpdateRequest>, nodes: seq<NodeId>, a: Entry, alive: set<NodeId>)
    ensures var m' := AddEntryToAll(c, m, nodes, a, alive);
      && m.Keys <= m'.Keys
      && (forall n :: n in m' ==> m'[n].nodeId == Get(m, n).nodeId && m'[n].responded == Get(m, n).responded)
      && Responded(m') == Responded(m)
    decreases |nodes|
  {
    if nodes != [] {
      AddEntryToAllKeeps(c, m, nodes[..|nodes| - 1], a, alive);
    }
  }

  /** For distinct nodes, the loop maps exactly the eligible nodes: each gets
      the entry appended to its request (a new one when it had none), and
      every other mapping is left as it was. */
  lemma {:induction false} AddEntryToAllMaps(c: Config, m: map<NodeId, UpdateRequest>, nodes: seq<NodeId>, a: Entry, alive: set<NodeId>, n: NodeId)
    requires Distinct(nodes)
    ensures var m' := AddEntryToAll(c, m, nodes, a, alive);
      && (n in m' <==> n in m || (n in nodes && Eligible(c, m, n, a, alive)))
      && (n in m' ==> m'[n] == if n in nodes && Eligible(c, m, n, a, alive) then Append(Get(m, n), a) else m[n])
    decreases |nodes|
  {
    if nodes != [] {
      var init := nodes[..|nodes| - 1];
      var last := nodes[|nodes| - 1];
      assert Distinct(init);
      AddEntryToAllMaps(c, m, init, a, alive, n);
      AddEntryToAllMaps(c, m, init, a, alive, last);
      assert last !in init;
      assert nodes == init + [last];
      if n != last {
        assert n in nodes <==> n in init;
      }
    }
  }

  /** `addWriteEntry` never maps the local node: the local node is mapped
      afterwards only if it was before. */
  lemma {:induction false} WriteEntryNeverMapsLocal(c: Config, m: map<NodeId, UpdateRequest>, nodes: seq<NodeId>, w: WriteEntry)
    ensures c.localNodeId in AddEntryToAll(c, m, nodes, Write(w), {}) <==> c.localNodeId in m
    decreases |nodes|
  {
    if nodes != [] {
      WriteEntryNeverMapsLocal(c, m, nodes[..|nodes| - 1], w);
    }
  }

  // -----------------------------------------------------------------------
  // The future's state and its transitions

  /** A backup's response: its error, if any, and the keys it failed to
      update. */
  datatype BackupResponse = BackupResponse(error: Option<Cause>, failed: seq<Key>)

  /** Everything the future changes. `failures` are the `addFailedKeys`
      calls made on the near response, `markedFailed` the `markAllKeysFailed`
      calls, `closureRuns` the closure applications in order, `callbacks`
      the completion-callback applications, `sent` the nodes a request was
      handed to the transport for. */
  datatype FutureState = FutureState(
    mappings: map<NodeId, UpdateRequest>,
    resCnt: int,
    done: bool,
    err: Option<Cause>,
    closures: seq<ClosureId>,
    closureRuns: seq<(ClosureId, bool)>,
    callbacks: nat,
    failures: seq<(seq<Key>, Cause)>,
    markedFailed: seq<Cause>,
    sent: seq<NodeId>)

  function Initial(): FutureState
  {
    FutureState(map[], 0, false, None, [], [], 0, [], [], [])
  }

  /** Every closure of cls applied to suc, in order. */
  function Runs(cls: seq<ClosureId>, suc: bool): (r: seq<(ClosureId, bool)>)
    ensures |r| == |cls|
    ensures forall i :: 0 <= i < |cls| ==> r[i] == (cls[i], suc)
    decreases |cls|
  {
    if cls == [] then [] else Runs(cls[..|cls| - 1], suc) + [(cls[|cls| - 1], suc)]
  }

  /** `onDone(null, err)`: effective only on a future not yet done; it then
      records the outcome, marks every key failed on error, runs every
      closure with the success flag and, under FULL_SYNC, applies the
      completion callback. */
  function Finish(c: Config, s: FutureState, err: Option<Cause>): (r: (FutureState, bool))
    ensures r.1 <==> !s.done
    ensures r.0.done
    ensures !r.1 ==> r.0 == s
    ensures r.1 ==> r.0.err == err && r.0.mappings == s.mappings && r.0.resCnt == s.resCnt
  {
    if s.done then (s, false)
    else
      var suc := err.None?;
      (s.(done := true,
          err := err,
          markedFailed := s.markedFailed + (if suc then [] else [err.value]),
          closureRuns := s.closureRuns + Runs(s.closures, suc),
          callbacks := s.callbacks + (if c.fullSync then 1 else 0)), true)
  }

  /** `registerResponse(nodeId)`: counts an unmapped node or an already
      counted one not at all; otherwise fires the request's flag, raises the
      counter and completes the future once the counter reaches the number
      of mappings. */
  function Register(c: Config, s: FutureState, n: NodeId): (r: (FutureState, bool))
    ensures r.1 <==> n in s.mappings && !s.mappings[n].responded
    ensures !r.1 ==> r.0 == s
    ensures r.0.mappings.Keys == s.mappings.Keys
    ensures r.0.resCnt == s.resCnt + (if r.1 then 1 else 0)
    ensures s.done ==> r.0.done
    ensures r.0.sent == s.sent && r.0.failures == s.failures && r.0.closures == s.closures
  {
    if n !in s.mappings then (s, false)
    else
      var (req, first) := OnResponse(s.mappings[n]);
      if !first then (s, false)
      else
        var s1 := s.(mappings := s.mappings[n := req], resCnt := s.resCnt + 1);
        if s1.resCnt == |s1.mappings| then (Finish(c, s1, None).0, true) else (s1, true)
  }

  /** `sendRequest(req)`: the request is handed to the transport; when the
      send fails (n in sendFails) the node is counted as responded. */
  function Send(c: Config, s: FutureState, n: NodeId, sendFails: set<NodeId>): (r: FutureState)
    ensures r.sent == s.sent + [n]
    ensures r.mappings.Keys == s.mappings.Keys
    ensures n !in sendFails ==> r == s.(sent := s.sent + [n])
    ensures s.done ==> r.done
  {
    var s1 := s.(sent := s.sent + [n]);
    if n in sendFails then Register(c, s1, n).0 else s1
  }

  /** `mapAll()`: every request sent, in the order the map yields them. */
  function SendAll(c: Config, s: FutureState, order: seq<NodeId>, sendFails: set<NodeId>): (r: FutureState)
    ensures r.sent == s.sent + order
    ensures r.mappings.Keys == s.mappings.Keys
    ensures s.done ==> r.done
    decreases |order|
  {
    if order == [] then s
    else Send(c, SendAll(c, s, order[..|order| - 1], sendFails), order[|order| - 1], sendFails)
  }

  /** `map()`: send every request, or complete at once when there is none;
      then, unless the mode is FULL_SYNC, apply the completion callback. */
  function MapRequests(c: Config, s: FutureState, order: seq<NodeId>, sendFails: set<NodeId>): (r: FutureState)
    ensures r.mappings.Keys == s.mappings.Keys
    ensures |s.mappings| == 0 || s.done ==> r.done
    ensures |s.mappings| == 0 ==> r.sent == s.sent
    ensures |s.mappings| > 0 ==> r.sent == s.sent + order
  {
    var s1 := if |s.mappings| > 0 then SendAll(c, s, order, sendFails) else Finish(c, s, None).0;
    if c.fullSync then s1 else s1.(callbacks := s1.callbacks + 1)
  }

  /** `onResult(nodeId, res)`: a response with an error hands its failed
      keys and the error to the near response; then the node is counted. */
  function RecordResult(c: Config, s: FutureState, n: NodeId, res: BackupResponse): (r: FutureState)
    ensures r.failures == s.failures + (if res.error.Some? then [(res.failed, res.error.value)] else [])
    ensures r.mappings.Keys == s.mappings.Keys
    ensures r.resCnt == s.resCnt + (if n in s.mappings && !s.mappings[n].responded then 1 else 0)
  {
    var s1 := if res.error.Some? then s.(failures := s.failures + [(res.failed, res.error.value)]) else s;
    Register(c, s1, n).0
  }

  /** The events the future reacts to. */
  datatype Event =
    | AddWrite(nodes: seq<NodeId>, w: WriteEntry)
    | AddNear(readers: seq<NodeId>, alive: set<NodeId>, nw: NearWriteEntry)
    | AddClosure(cl: ClosureId)
    | MapEvent(order: seq<NodeId>, sendFails: set<NodeId>)
    | Result(node: NodeId, res: BackupResponse)
    | DeferredResult(node: NodeId)
    | NodeLeft(node: NodeId)
    | Done(error: Option<Cause>)

  /** One event. A closure is registered only on a future that is not done
      (the source asserts it); one offered later is not part of any run. */
  function Step(c: Config, s: FutureState, e: Event): FutureState
  {
    match e
    case AddWrite(nodes, w) => s.(mappings := AddEntryToAll(c, s.mappings, nodes, Write(w), {}))
    case AddNear(readers, alive, nw) => s.(mappings := AddEntryToAll(c, s.mappings, readers, Near(nw), alive))
    case AddClosure(cl) => if s.done then s else s.(closures := s.closures + [cl])
    case MapEvent(order, sendFails) => MapRequests(c, s, order, sendFails)
    case Result(n, res) => RecordResult(c, s, n, res)
    case DeferredResult(n) => Register(c, s, n).0
    case NodeLeft(n) => Register(c, s, n).0
    case Done(err) => Finish(c, s, err).0
  }

  /** The state after a sequence of events, from a new future. */
  function Run(c: Config, evs: seq<Event>): FutureState
    decreases |evs|
  {
    if evs == [] then Initial() else Step(c, Run(c, evs[..|evs| - 1]), evs[|evs| - 1])
  }

  /** How many `map()` calls a sequence of events holds. */
  function MapCalls(evs: seq<Event>): (k: nat)
    ensures k <= |evs|
    decreases |evs|
  {
    if evs == [] then 0 else MapCalls(evs[..|evs| - 1]) + (if evs[|evs| - 1].MapEvent? then 1 else 0)
  }

  // -----------------------------------------------------------------------
  // Invariants

  /** What holds of the future between events: the counter is the number of
      mapped nodes whose response was counted, the future is done once every
      mapped node is counted, the closures have run exactly once each with
      the success flag iff the future is done, all keys were marked failed
      exactly when it completed with an error, and under FULL_SYNC the
      callback fired iff the future is done. */
  ghost predicate Inv(c: Config, s: FutureState)
  {
    && s.resCnt == |Responded(s.mappings)|
    && (|s.mappings| > 0 && s.resCnt == |s.mappings| ==> s.done)
    && s.closureRuns == (if s.done then Runs(s.closures, s.err.None?) else [])
    && s.markedFailed == (if s.done && s.err.Some? then [s.err.value] else [])
    && (c.fullSync ==> s.callbacks == if s.done then 1 else 0)
  }

  lemma SubsetCardinality(a: set<NodeId>, b: set<NodeId>)
    requires a <= b
    ensures |a| <= |b|
    ensures |a| == |b| ==> a == b
  {
    assert b == a + (b - a);
  }

  /** The counter never exceeds the number of mappings. */
  lemma CounterBounded(c: Config, s: FutureState)
    requires Inv(c, s)
    ensures 0 <= s.resCnt <= |s.mappings|
  {
    SubsetCardinality(Responded(s.mappings), s.mappings.Keys);
  }

  /** `onDone` takes effect once: the first call on a future not done
      records the outcome and runs the closures and, under FULL_SYNC, the
      callback; any later call reports false and changes nothing. */
  lemma FinishOnce(c: Config, s: FutureState, e1: Option<Cause>, e2: Option<Cause>)
    requires Inv(c, s) && !s.done
    ensures var (s1, ok1) := Finish(c, s, e1);
      && ok1 && s1.done && s1.err == e1
      && Inv(c, s1)
      && s1.closureRuns == Runs(s.closures, e1.None?)
      && s1.markedFailed == (if e1.Some? then [e1.value] else [])
      && s1.callbacks == s.callbacks + (if c.fullSync then 1 else 0)
      && s1.mappings == s.mappings && s1.resCnt == s.resCnt
      && Finish(c, s1, e2) == (s1, false)
  {
  }

  /** A mapped node is counted once: its first registration reports true and
      raises the counter by one, a second reports false and changes nothing;
      registering an unmapped node changes nothing. */
  lemma RegisterOnce(c: Config, s: FutureState, n: NodeId)
    requires Inv(c, s)
    ensures var (s1, ok1) := Register(c, s, n);
      && (ok1 <==> n in s.mappings && !s.mappings[n].responded)
      && s1.mappings.Keys == s.mappings.Keys
      && s1.resCnt == s.resCnt + (if ok1 then 1 else 0)
      && (!ok1 ==> s1 == s)
      && Inv(c, s1)
      && Register(c, s1, n) == (s1, false)
  {
    var (s1, ok1) := Register(c, s, n);
    if ok1 {
      var m1 := s.mappings[n := s.mappings[n].(responded := true)];
      assert Responded(m1) == Responded(s.mappings) + {n};
      assert n !in Responded(s.mappings);
      assert m1.Keys == s.mappings.Keys;
    }
  }

  /** On a future not done yet, a counted registration completes the future
      exactly when it brings the counter to the number of mappings. */
  lemma RegisterCompletes(c: Config, s: FutureState, n: NodeId)
    requires Inv(c, s) && !s.done && n in s.mappings && !s.mappings[n].responded
    ensures var (s1, ok1) := Register(c, s, n);
      ok1 && (s1.done <==> s1.resCnt == |s1.mappings|) && (s1.done ==> s1.err.None?)
  {
    RegisterOnce(c, s, n);
  }

  lemma SendKeeps(c: Config, s: FutureState, n: NodeId, sendFails: set<NodeId>)
    requires Inv(c, s)
    ensures var s1 := Send(c, s, n, sendFails);
      && Inv(c, s1) && s1.mappings.Keys == s.mappings.Keys
      && s1.sent == s.sent + [n]
      && s1.callbacks >= s.callbacks && s1.closures == s.closures && s1.failures == s.failures
      && (!c.fullSync ==> s1.callbacks == s.callbacks)
  {
    RegisterOnce(c, s.(sent := s.sent + [n]), n);
  }

  /** Sending every request keeps the invariant and the mappings, and hands
      each listed node's request to the transport once, in order. */
  lemma {:induction false} SendAllKeeps(c: Config, s: FutureState, order: seq<NodeId>, sendFails: set<NodeId>)
    requires Inv(c, s)
    ensures var s1 := SendAll(c, s, order, sendFails);
      && Inv(c, s1) && s1.mappings.Keys == s.mappings.Keys
      && s1.sent == s.sent + order
      && s1.closures == s.closures && s1.failures == s.failures
      && (!c.fullSync ==> s1.callbacks == s.callbacks)
    decreases |order|
  {
    if order != [] {
      var init := order[..|order| - 1];
      SendAllKeeps(c, s, init, sendFails);
      SendKeeps(c, SendAll(c, s, init, sendFails), order[|order| - 1], sendFails);
      assert init + [order[|order| - 1]] == order;
    }
  }

  /** After `mapAll`, every node whose send failed has been counted: a send
      failure counts like an ack. */
  lemma {:induction false} SendAllCountsFailures(c: Config, s: FutureState, order: seq<NodeId>, sendFails: set<NodeId>, n: NodeId)
    requires Inv(c, s) && n in s.mappings && n in order && n in sendFails
    ensures var s1 := SendAll(c, s, order, sendFails);
      n in s1.mappings && s1.mappings[n].responded
    decreases |order|
  {
    var init := order[..|order| - 1];
    var last := order[|order| - 1];
    assert order == init + [last];
    SendAllKeeps(c, s, init, sendFails);
    var s0 := SendAll(c, s, init, sendFails);
    if n == last {
      RegisterOnce(c, s0.(sent := s0.sent + [n]), n);
    } else {
      assert n in init;
      SendAllCountsFailures(c, s, init, sendFails, n);
      RespondedStays(c, s0, last, sendFails, n);
    }
  }

  lemma RespondedStays(c: Config, s: FutureState, m: NodeId, sendFails: set<NodeId>, n: NodeId)
    requires Inv(c, s) && n in s.mappings && s.mappings[n].responded
    ensures var s1 := Send(c, s, m, sendFails);
      n in s1.mappings && s1.mappings[n].responded
  {
  }

  /** `map()` with no mapping completes the future successfully at once;
      with mappings it sends every request in the order listed. Unless the
      mode is FULL_SYNC it applies the callback exactly once more. */
  lemma MapSendsOrCompletes(c: Config, s: FutureState, order: seq<NodeId>, sendFails: set<NodeId>)
    requires Inv(c, s)
    ensures var s1 := MapRequests(c, s, order, sendFails);
      && Inv(c, s1)
      && s1.mappings.Keys == s.mappings.Keys
      && (|s.mappings| == 0 ==> s1.done && (!s.done ==> s1.err.None?) && s1.sent == s.sent)
      && (|s.mappings| > 0 ==> s1.sent == s.sent + order)
      && (!c.fullSync ==> s1.callbacks == s.callbacks + 1)
  {
    if |s.mappings| > 0 {
      SendAllKeeps(c, s, order, sendFails);
    }
  }

  /** When every send fails, `map()` completes the future by itself: each
      mapped node is counted once and the last count completes it. */
  lemma {:induction false} AllSendsFailing(c: Config, s: FutureState, order: seq<NodeId>, sendFails: set<NodeId>)
    requires Inv(c, s) && |s.mappings| > 0
    requires forall n :: n in s.mappings ==> n in order && n in sendFails
    ensures MapRequests(c, s, order, sendFails).done
  {
    var s1 := SendAll(c, s, order, sendFails);
    SendAllKeeps(c, s, order, sendFails);
    forall n | n in s.mappings
      ensures n in Responded(s1.mappings)
    {
      SendAllCountsFailures(c, s, order, sendFails, n);
    }
    assert Responded(s1.mappings) == s1.mappings.Keys;
  }

  /** Adding entries keeps the invariant. */
  lemma AddEntryKeepsInv(c: Config, s: FutureState, nodes: seq<NodeId>, a: Entry, alive: set<NodeId>)
    requires Inv(c, s)
    ensures Inv(c, s.(mappings := AddEntryToAll(c, s.mappings, nodes, a, alive)))
  {
    var m' := AddEntryToAll(c, s.mappings, nodes, a, alive);
    AddEntryToAllKeeps(c, s.mappings, nodes, a, alive);
    SubsetCardinality(Responded(s.mappings), s.mappings.Keys);
    SubsetCardinality(s.mappings.Keys, m'.Keys);
  }

  /** A counted registration, from an ack, a node leaving or a failed
      send, keeps the invariant and leaves the callback count alone outside
      FULL_SYNC. */
  lemma RegisterKeeps(c: Config, s: FutureState, n: NodeId)
    requires Inv(c, s)
    ensures Inv(c, Register(c, s, n).0)
    ensures !c.fullSync ==> Register(c, s, n).0.callbacks == s.callbacks
  {
    RegisterOnce(c, s, n);
  }

  /** A backup's result keeps the invariant and the callback count. */
  lemma RecordResultKeeps(c: Config, s: FutureState, n: NodeId, res: BackupResponse)
    requires Inv(c, s)
    ensures Inv(c, RecordResult(c, s, n, res))
    ensures !c.fullSync ==> RecordResult(c, s, n, res).callbacks == s.callbacks
  {
    var s1 := if res.error.Some? then s.(failures := s.failures + [(res.failed, res.error.value)]) else s;
    RegisterKeeps(c, s1, n);
  }

  /** Every event keeps the invariant, and leaves the callback count alone
      outside FULL_SYNC unless it is a `map()` call, which adds one. */
  lemma StepKeeps(c: Config, s: FutureState, e: Event)
    requires Inv(c, s)
    ensures Inv(c, Step(c, s, e))
    ensures !c.fullSync ==> Step(c, s, e).callbacks == s.callbacks + (if e.MapEvent? then 1 else 0)
  {
    match e
    case AddWrite(nodes, w) => AddEntryKeepsInv(c, s, nodes, Write(w), {});
    case AddNear(readers, alive, nw) => AddEntryKeepsInv(c, s, readers, Near(nw), alive);
    case AddClosure(cl) =>
    case MapEvent(order, sendFails) => MapSendsOrCompletes(c, s, order, sendFails);
    case Result(n, res) => RecordResultKeeps(c, s, n, res);
    case DeferredResult(n) => RegisterKeeps(c, s, n);
    case NodeLeft(n) => RegisterKeeps(c, s, n);
    case Done(err) =>
  }

  /** Over any sequence of events the invariant holds, and outside FULL_SYNC
      the callback has fired once per `map()` call. */
  lemma {:induction false} RunKeeps(c: Config, evs: seq<Event>)
    ensures Inv(c, Run(c, evs))
    ensures !c.fullSync ==> Run(c, evs).callbacks == MapCalls(evs)
    decreases |evs|
  {
    if evs != [] {
      RunKeeps(c, evs[..|evs| - 1]);
      StepKeeps(c, Run(c, evs[..|evs| - 1]), evs[|evs| - 1]);
    }
  }

  /** A future that is done only because every mapped node was counted,
      with no error. */
  ghost predicate CountedDone(s: FutureState)
  {
    s.done ==> |s.mappings| > 0 && s.resCnt == |s.mappings| && s.err.None?
  }

  /** A registration completes the future only by counting the last mapped
      node, successfully; on a future completed that way every mapped node
      has been counted, so a further registration changes nothing. */
  lemma RegisterKeepsCountedDone(c: Config, s: FutureState, n: NodeId)
    requires Inv(c, s) && CountedDone(s)
    ensures CountedDone(Register(c, s, n).0)
  {
    if s.done && n in s.mappings {
      SubsetCardinality(Responded(s.mappings), s.mappings.Keys);
      assert n in Responded(s.mappings);
    }
  }

  /** Sending every request completes the future only by counting. */
  lemma {:induction false} SendAllKeepsCountedDone(c: Config, s: FutureState, order: seq<NodeId>, sendFails: set<NodeId>)
    requires Inv(c, s) && CountedDone(s)
    ensures CountedDone(SendAll(c, s, order, sendFails))
    decreases |order|
  {
    if order != [] {
      var init := order[..|order| - 1];
      var s0 := SendAll(c, s, init, sendFails);
      SendAllKeepsCountedDone(c, s, init, sendFails);
      SendAllKeeps(c, s, init, sendFails);
      RegisterKeepsCountedDone(c, s0.(sent := s0.sent + [order[|order| - 1]]), order[|order| - 1]);
    }
  }

  /** A future completes only through `onDone`, through `map()` with no
      request to send, or once the counter reaches the number of mappings,
      and in that last case successfully. */
  lemma StepCompletesOnlyWhenCounted(c: Config, s: FutureState, e: Event)
    requires Inv(c, s) && !s.done
    ensures var s1 := Step(c, s, e);
      s1.done ==>
        || e.Done?
        || (e.MapEvent? && |s.mappings| == 0)
        || (|s1.mappings| > 0 && s1.resCnt == |s1.mappings| && s1.err.None?)
  {
    match e
    case AddWrite(nodes, w) =>
    case AddNear(readers, alive, nw) =>
    case AddClosure(cl) =>
    case MapEvent(order, sendFails) =>
      if |s.mappings| > 0 {
        SendAllKeepsCountedDone(c, s, order, sendFails);
      }
    case Result(n, res) =>
      var s1 := if res.error.Some? then s.(failures := s.failures + [(res.failed, res.error.value)]) else s;
      RegisterKeepsCountedDone(c, s1, n);
    case DeferredResult(n) => RegisterKeepsCountedDone(c, s, n);
    case NodeLeft(n) => RegisterKeepsCountedDone(c, s, n);
    case Done(err) =>
  }

  /** In any run, the event that completes the future is an `onDone` call,
      a `map()` call with no request to send, or the registration that
      brings the counter to the number of mappings, with no error. */
  lemma CompletionCause(c: Config, evs: seq<Event>, i: nat)
    requires i < |evs|
    requires !Run(c, evs[..i]).done && Run(c, evs[..i + 1]).done
    ensures var s1 := Run(c, evs[..i + 1]);
      || evs[i].Done?
      || (evs[i].MapEvent? && |Run(c, evs[..i]).mappings| == 0)
      || (|s1.mappings| > 0 && s1.resCnt == |s1.mappings| && s1.err.None?)
  {
    assert evs[..i + 1][..i] == evs[..i];
    RunKeeps(c, evs[..i]);
    StepCompletesOnlyWhenCounted(c, Run(c, evs[..i]), evs[i]);
  }

  /** Completion is final: once a run has completed the future, every
      longer run from the same events has too. */
  lemma {:induction false} RunStaysDone(c: Config, evs: seq<Event>, i: nat)
    requires i <= |evs| && Run(c, evs[..i]).done
    ensures Run(c, evs).done
    decreases |evs| - i
  {
    if i == |evs| {
      assert evs[..i] == evs;
    } else {
      assert evs[..i + 1][..i] == evs[..i];
      assert Step(c, Run(c, evs[..i]), evs[i]).done;
      RunStaysDone(c, evs, i + 1);
    }
  }

  /** The completion callback fires exactly once in a run with one `map()`
      call: at that call unless the mode is FULL_SYNC, and otherwise exactly
      when the future has completed. Never more than once in any run with at
      most one `map()` call. */
  lemma CallbackOnce(c: Config, evs: seq<Event>)
    requires MapCalls(evs) <= 1
    ensures var s := Run(c, evs);
      && s.callbacks <= 1
      && (!c.fullSync ==> (s.callbacks == 1 <==> MapCalls(evs) == 1))
      && (c.fullSync ==> (s.callbacks == 1 <==> s.done))
  {
    RunKeeps(c, evs);
  }

  /** In any run, each mapped node has been counted at most once and the
      counter stays within the number of mappings; once every mapped node is
      counted the future is done. */
  lemma CountedAtMostOnce(c: Config, evs: seq<Event>)
    ensures var s := Run(c, evs);
      && s.resCnt == |Responded(s.mappings)|
      && 0 <= s.resCnt <= |s.mappings|
      && (|s.mappings| > 0 && s.resCnt == |s.mappings| ==> s.done)
  {
    RunKeeps(c, evs);
    CounterBounded(c, Run(c, evs));
  }

  /** A backup's error reaches the near response together with all the keys
      it failed; the node is then counted as for any ack. */
  lemma ResultRecordsFailures(c: Config, s: FutureState, n: NodeId, res: BackupResponse)
    requires Inv(c, s)
    ensures var s1 := RecordResult(c, s, n, res);
      && s1.failures == s.failures + (if res.error.Some? then [(res.failed, res.error.value)] else [])
      && s1.resCnt == s.resCnt + (if n in s.mappings && !s.mappings[n].responded then 1 else 0)
  {
    var s0 := if res.error.Some? then s.(failures := s.failures + [(res.failed, res.error.value)]) else s;
    RegisterOnce(c, s0, n);
  }

  // -----------------------------------------------------------------------
  // The future object

  class DhtUpdateFuture {
    const cfg: Config
    var mappings: map<NodeId, UpdateRequest>
    var resCnt: int
    var done: bool
    var err: Option<Cause>
    var closures: seq<ClosureId>
    var closureRuns: seq<(ClosureId, bool)>
    var callbacks: nat
    var failures: seq<(seq<Key>, Cause)>
    var markedFailed: seq<Cause>
    var sent: seq<NodeId>

    function Snapshot(): FutureState
      reads this
    {
      FutureState(mappings, resCnt, done, err, closures, closureRuns, callbacks, failures, markedFailed, sent)
    }

    /** A new future: no mapping, nothing counted, not done. */
    constructor(c: Config)
      ensures cfg == c && Snapshot() == Initial()
    {
      cfg := c;
      mappings := map[];
      resCnt := 0;
      done := false;
      err := None;
      closures := [];
      closureRuns := [];
      callbacks := 0;
      failures := [];
      markedFailed := [];
      sent := [];
    }

    /** The loops of `addWriteEntry` and `addNearWriteEntries`: for each
        node in turn, when it is eligible, look its request up, create and
        map it if missing, and append the entry. */
    method AddToMappings(nodes: seq<NodeId>, a: Entry, alive: set<NodeId>)
      modifies this
      ensures Snapshot() == old(Snapshot()).(mappings := AddEntryToAll(cfg, old(mappings), nodes, a, alive))
    {
      for i := 0 to |nodes|
        invariant Snapshot() == old(Snapshot()).(mappings := AddEntryToAll(cfg, old(mappings), nodes[..i], a, alive))
      {
        var n := nodes[i];
        var eligible := if a.Write? then n != cfg.localNodeId else n in mappings || n in alive;
        if eligible {
          var req := if n in mappings then mappings[n] else NewRequest(n);
          mappings := mappings[n := Append(req, a)];
        }
        assert nodes[..i + 1][..i] == nodes[..i];
      }
      assert nodes[..|nodes|] == nodes;
    }

    /** `addWriteEntry(entry, ...)` for the partition's nodes dhtNodes. */
    method AddWriteEntry(dhtNodes: seq<NodeId>, w: WriteEntry)
      modifies this
      ensures Snapshot() == Step(cfg, old(Snapshot()), AddWrite(dhtNodes, w))
    {
      AddToMappings(dhtNodes, Write(w), {});
    }

    /** `addNearWriteEntries(readers, entry, ...)`; alive holds the readers
        discovery still knows. */
    method AddNearWriteEntries(readers: seq<NodeId>, alive: set<NodeId>, nw: NearWriteEntry)
      modifies this
      ensures Snapshot() == Step(cfg, old(Snapshot()), AddNear(readers, alive, nw))
    {
      AddToMappings(readers, Near(nw), alive);
    }

    /** `addContinuousQueryClosure(clsr)`. */
    method AddContinuousQueryClosure(cl: ClosureId)
      requires !done
      modifies this
      ensures Snapshot() == Step(cfg, old(Snapshot()), AddClosure(cl))
    {
      closures := closures + [cl];
    }

    /** The loop of `onDone` that applies every registered closure to the
        success flag, in order. */
    method RunClosures(suc: bool)
      modifies this
      ensures Snapshot() == old(Snapshot()).(closureRuns := old(closureRuns) + Runs(closures, suc))
    {
      var cls := closures;
      for i := 0 to |cls|
        invariant Snapshot() == old(Snapshot()).(closureRuns := old(closureRuns) + Runs(cls[..i], suc))
      {
        closureRuns := closureRuns + [(cls[i], suc)];
        assert cls[..i + 1][..i] == cls[..i];
      }
      assert cls[..|cls|] == cls;
    }

    /** `onDone(null, err)`. */
    method OnDone(e: Option<Cause>) returns (ok: bool)
      modifies this
      ensures (Snapshot(), ok) == Finish(cfg, old(Snapshot()), e)
    {
      if done {
        return false;
      }
      done := true;
      err := e;
      var suc := e.None?;
      if !suc {
        markedFailed := markedFailed + [e.value];
      }
      assert markedFailed == old(markedFailed) + (if suc then [] else [e.value]);
      RunClosures(suc);
      if cfg.fullSync {
        callbacks := callbacks + 1;
      }
      return true;
    }

    /** `registerResponse(nodeId)`. */
    method RegisterResponse(n: NodeId) returns (ok: bool)
      modifies this
      ensures (Snapshot(), ok) == Register(cfg, old(Snapshot()), n)
    {
      if n !in mappings {
        return false;
      }
      var (req, first) := OnResponse(mappings[n]);
      if !first {
        return false;
      }
      mappings := mappings[n := req];
      resCnt := resCnt + 1;
      if resCnt == |mappings| {
        var _ := OnDone(None);
      }
      return true;
    }

    /** `sendRequest(req)` to node n; sendFails are the nodes the transport
        fails to reach. */
    method SendRequest(n: NodeId, sendFails: set<NodeId>)
      modifies this
      ensures Snapshot() == Send(cfg, old(Snapshot()), n, sendFails)
    {
      sent := sent + [n];
      if n in sendFails {
        var _ := RegisterResponse(n);
      }
    }

    /** `map()`, with order the order in which the map yields its requests
        (each mapped node once) and sendFails the nodes the transport fails
        to reach. */
    method Map(order: seq<NodeId>, sendFails: set<NodeId>)
      requires Distinct(order) && forall n :: n in order <==> n in mappings
      modifies this
      ensures Snapshot() == Step(cfg, old(Snapshot()), MapEvent(order, sendFails))
    {
      if |mappings| > 0 {
        for i := 0 to |order|
          invariant Snapshot() == SendAll(cfg, old(Snapshot()), order[..i], sendFails)
        {
          SendRequest(order[i], sendFails);
          assert order[..i + 1][..i] == order[..i];
        }
        assert order[..|order|] == order;
      } else {
        var _ := OnDone(None);
      }
      if !cfg.fullSync {
        callbacks := callbacks + 1;
      }
    }

    /** `onResult(nodeId, updateRes)`: the failed keys are copied into a
        list handed with the error to the near response. */
    method OnResult(n: NodeId, res: BackupResponse)
      modifies this
      ensures Snapshot() == Step(cfg, old(Snapshot()), Result(n, res))
    {
      if res.error.Some? {
        var failed: seq<Key> := [];
        for i := 0 to |res.failed|
          invariant failed == res.failed[..i]
        {
          failed := failed + [res.failed[i]];
        }
        assert failed == res.failed;
        failures := failures + [(failed, res.error.value)];
      }
      var _ := RegisterResponse(n);
    }

    /** `onResult(nodeId)`, a deferred ack. */
    method OnDeferredResult(n: NodeId)
      modifies this
      ensures Snapshot() == Step(cfg, old(Snapshot()), DeferredResult(n))
    {
      var _ := RegisterResponse(n);
    }

    /** `onNodeLeft(nodeId)`. */
    method OnNodeLeft(n: NodeId) returns (found: bool)
      modifies this
      ensures (Snapshot(), found) == Register(cfg, old(Snapshot()), n)
      ensures Snapshot() == Step(cfg, old(Snapshot()), NodeLeft(n))
    {
      found := RegisterResponse(n);
    }
  }
}
