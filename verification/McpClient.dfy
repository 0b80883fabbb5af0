/**
  The MCP client: one id counter for every request, retries of transport failures, and the registry that
  discovery fills.  The servers are a stream of outcomes, one for each request sent.
*/
module McpClient {
  import opened Wrappers

  type Endpoint = string

  /** A tool of a listing; a listing may omit the name, and then reading it raises. */
  datatype RawTool = RawTool(name: Option<string>)

  /** A result; one that discovery cannot read as a listing counts as a listing of one tool without a name. */
  datatype Payload = Payload(tools: seq<RawTool>, body: string)

  /** The error member of a reply; null, a string or a list is not an object, and reading its code raises. */
  datatype ErrorMember = ErrorObject(text: string) | NotAnObject

  /** What a transport's send does. */
  datatype Outcome =
    | Replied(error: Option<ErrorMember>, result: Option<Payload>)
    | TransportFailed   // a connection-level failure
    | Escaped           // any other exception, a timeout of the stdio pipe or a reply that is not JSON

  datatype Failure = Protocol | Transport | Other

  datatype Tool = Tool(name: string, endpoint: Endpoint)

  datatype Request = Request(id: nat, endpoint: Endpoint, rpc: string)

  type World = nat -> Outcome

  /** JSON-RPC: an error member wins over a result, and one of the two must be there. */
  function Unwrap(o: Outcome): Result<Payload, Failure> {
    match o
    case Replied(Some(ErrorObject(_)), _) => Err(Protocol)
    case Replied(Some(NotAnObject), _) => Err(Other)
    case Replied(None, None) => Err(Protocol)
    case Replied(None, Some(p)) => Ok(p)
    case TransportFailed => Err(Transport)
    case Escaped => Err(Other)
  }

  // ---------------------------------------------------------------- one call

  /** The last request of the call whose first request is the k-th. */
  function LastSend(world: World, k: nat): (last: nat)
    ensures k <= last <= k + 2
    ensures forall i :: k <= i < last ==> world(i).TransportFailed?
    ensures world(last).TransportFailed? ==> last == k + 2
  {
    if !world(k).TransportFailed? then k
    else if !world(k + 1).TransportFailed? then k + 1
    else k + 2
  }

  function CallResult(world: World, k: nat): Result<Payload, Failure> {
    Unwrap(world(LastSend(world, k)))
  }

  /** Where a call ends is fixed by what its requests met, not by how the retries are written. */
  lemma LastSendUnique(world: World, k: nat, last: nat)
    requires k <= last <= k + 2
    requires forall i :: k <= i < last ==> world(i).TransportFailed?
    requires world(last).TransportFailed? ==> last == k + 2
    ensures last == LastSend(world, k)
  {
    var l := LastSend(world, k);
  }

  // ---------------------------------------------------------------- discovery

  /** The tools of one listing up to the first without a name. */
  function Named(raw: seq<RawTool>, key: Endpoint): seq<Tool> {
    if raw == [] || raw[0].name.None? then [] else [Tool(raw[0].name.value, key)] + Named(raw[1..], key)
  }

  /** The tools of a listing are found in order up to the first one without a name, and none after it. */
  lemma {:induction false} NamedUpTo(raw: seq<RawTool>, key: Endpoint, n: nat)
    requires n <= |raw| && AllNamed(raw[..n]) && (n < |raw| ==> raw[n].name.None?)
    ensures |Named(raw, key)| == n
    ensures forall i :: 0 <= i < n ==> Named(raw, key)[i] == Tool(raw[i].name.value, key)
  {
    if n > 0 {
      assert raw[..n][0] == raw[0];
      assert raw[1..][..n - 1] == raw[..n][1..];
      NamedUpTo(raw[1..], key, n - 1);
    }
  }

  predicate AllNamed(raw: seq<RawTool>) {
    forall i :: 0 <= i < |raw| ==> raw[i].name.Some?
  }

  /** After discovery: the next request, the tools met, and whether an exception got out. */
  datatype Discovery = Discovery(next: nat, tools: seq<Tool>, crashed: bool)

  function Discover(world: World, k: nat, keys: seq<Endpoint>): Discovery
    decreases |keys|
  {
    if keys == [] then Discovery(k, [], false)
    else
      var next := LastSend(world, k) + 1;
      match CallResult(world, k)
      case Err(Other) => Discovery(next, [], true)
      case Err(_) => Discover(world, next, keys[1..])
      case Ok(p) =>
        var tools := Named(p.tools, keys[0]);
        if !AllNamed(p.tools) then Discovery(next, tools, true)
        else
          var rest := Discover(world, next, keys[1..]);
          rest.(tools := tools + rest.tools)
  }

  /** Later tools replace earlier ones of the same name. */
  function Register(registry: map<string, Tool>, tools: seq<Tool>): map<string, Tool>
    decreases |tools|
  {
    if tools == [] then registry else Register(registry[tools[0].name := tools[0]], tools[1..])
  }

  lemma {:induction false} RegisterConcat(registry: map<string, Tool>, xs: seq<Tool>, ys: seq<Tool>)
    ensures Register(registry, xs + ys) == Register(Register(registry, xs), ys)
    decreases |xs|
  {
    if xs == [] {
      assert xs + ys == ys;
    } else {
      assert (xs + ys)[1..] == xs[1..] + ys;
      RegisterConcat(registry[xs[0].name := xs[0]], xs[1..], ys);
    }
  }

  /** The last place of a name in a list of tools. */
  ghost predicate LastNamed(tools: seq<Tool>, name: string, i: int) {
    0 <= i < |tools| && tools[i].name == name && forall j :: i < j < |tools| ==> tools[j].name != name
  }

  /** A name is bound to the last tool found under it, or as before if there is none. */
  lemma {:induction false} RegisterLast(registry: map<string, Tool>, tools: seq<Tool>, name: string)
    ensures var r := Register(registry, tools);
      && (forall i :: LastNamed(tools, name, i) ==> name in r && r[name] == tools[i])
      && ((forall i :: 0 <= i < |tools| ==> tools[i].name != name) ==>
            (name in r <==> name in registry) && (name in registry ==> r[name] == registry[name]))
  {
    if tools != [] {
      var n := |tools| - 1;
      var rest, t := tools[..n], tools[n];
      RegisterLast(registry, rest, name);
      RegisterConcat(registry, rest, [t]);
      assert rest + [t] == tools;
      var before := Register(registry, rest);
      assert Register(before, [t]) == before[t.name := t] by {
        assert [t][1..] == [];
      }
      forall i | LastNamed(tools, name, i) && i < n ensures LastNamed(rest, name, i) {
      }
    }
  }

  predicate Bound(registry: map<string, Tool>, transports: seq<Endpoint>) {
    forall name :: name in registry ==> registry[name].name == name && registry[name].endpoint in transports
  }

  lemma {:induction false} NamedFrom(raw: seq<RawTool>, key: Endpoint)
    ensures forall i :: 0 <= i < |Named(raw, key)| ==> Named(raw, key)[i].endpoint == key
    ensures AllNamed(raw) ==>
              && |Named(raw, key)| == |raw|
              && forall i :: 0 <= i < |raw| ==> Named(raw, key)[i] == Tool(raw[i].name.value, key)
  {
    if raw != [] && raw[0].name.Some? {
      NamedFrom(raw[1..], key);
      assert AllNamed(raw) ==> AllNamed(raw[1..]);
    }
  }

  lemma {:induction false} RegisterBound(registry: map<string, Tool>, tools: seq<Tool>, transports: seq<Endpoint>)
    requires Bound(registry, transports) && forall i :: 0 <= i < |tools| ==> tools[i].endpoint in transports
    ensures Bound(Register(registry, tools), transports)
    decreases |tools|
  {
    if tools != [] {
      RegisterBound(registry[tools[0].name := tools[0]], tools[1..], transports);
    }
  }

  /** Whichever servers fail, discovery finds tools of asked servers only, in at most three requests each. */
  lemma {:induction false} DiscoverBounds(world: World, k: nat, keys: seq<Endpoint>)
    ensures var d := Discover(world, k, keys);
      && k <= d.next <= k + 3 * |keys|
      && forall i :: 0 <= i < |d.tools| ==> d.tools[i].endpoint in keys
    decreases |keys|
  {
    if keys != [] {
      var next := LastSend(world, k) + 1;
      DiscoverBounds(world, next, keys[1..]);
      match CallResult(world, k)
      case Err(_) =>
      case Ok(p) => NamedFrom(p.tools, keys[0]);
    }
  }

  /** The first request made to the i-th server, if discovery gets that far. */
  function StartOf(world: World, k: nat, i: nat): nat
    decreases i
  {
    if i == 0 then k else StartOf(world, LastSend(world, k) + 1, i - 1)
  }

  lemma StartOfFirst(world: World, k: nat)
    ensures StartOf(world, k, 0) == k
  {
  }

  /** A server's first request comes right after the last one of the server before. */
  lemma {:induction false} StartOfNext(world: World, k: nat, i: nat)
    ensures StartOf(world, k, i + 1) == LastSend(world, StartOf(world, k, i)) + 1
    decreases i
  {
    if i > 0 {
      StartOfNext(world, LastSend(world, k) + 1, i - 1);
    }
  }

  /**
    Servers that fail in the two expected ways do not hide the others: if nothing escapes, every tool listed
    by a server that answers is discovered, whatever the rest do.
  */
  lemma {:induction false} DiscoveryIsolatesFailures(world: World, k: nat, keys: seq<Endpoint>, i: nat, t: nat)
    requires i < |keys| && !Discover(world, k, keys).crashed
    requires CallResult(world, StartOf(world, k, i)).Ok?
    requires t < |CallResult(world, StartOf(world, k, i)).value.tools|
    ensures var raw := CallResult(world, StartOf(world, k, i)).value.tools[t];
      raw.name.Some? && Tool(raw.name.value, keys[i]) in Discover(world, k, keys).tools
    decreases |keys|
  {
    var next := LastSend(world, k) + 1;
    if CallResult(world, k).Ok? {
      var p := CallResult(world, k).value;
      NamedFrom(p.tools, keys[0]);
      if i == 0 {
        assert Named(p.tools, keys[0])[t] == Tool(p.tools[t].name.value, keys[0]);
      }
    }
    if i > 0 {
      DiscoveryIsolatesFailures(world, next, keys[1..], i - 1, t);
    }
  }

  /** The answer of the i-th server is neither a listing nor an expected failure. */
  predicate CrashesAt(world: World, k: nat, i: nat) {
    Unexpected(CallResult(world, StartOf(world, k, i)))
  }

  /** Discovery stops early exactly when some server's answer is neither a listing nor an expected failure. */
  lemma {:induction false} DiscoveryCrash(world: World, k: nat, keys: seq<Endpoint>)
    ensures Discover(world, k, keys).crashed <==> exists i: nat :: i < |keys| && CrashesAt(world, k, i)
    decreases |keys|
  {
    hide LastSend, CallResult, AllNamed, Named;
    if keys != [] {
      var next := LastSend(world, k) + 1;
      DiscoveryCrash(world, next, keys[1..]);
      forall i: nat ensures CrashesAt(world, next, i) <==> CrashesAt(world, k, i + 1) {
        assert StartOf(world, k, i + 1) == StartOf(world, next, i);
      }
      assert CrashesAt(world, k, 0) <==> Unexpected(CallResult(world, k));
      if i: nat :| i < |keys| && CrashesAt(world, k, i) {
        assert i > 0 ==> CrashesAt(world, next, i - 1);
      }
    }
  }

  /** The i-th server's answer is an exception that the loop over the servers does not catch. */
  predicate EscapesAt(world: World, k: nat, i: nat) {
    CallResult(world, StartOf(world, k, i)) == Err(Other)
  }

  predicate FirstEscape(world: World, k: nat, i: nat) {
    EscapesAt(world, k, i) && forall j: nat :: j < i ==> !EscapesAt(world, k, j)
  }

  predicate FirstCrash(world: World, k: nat, i: nat) {
    CrashesAt(world, k, i) && forall j: nat :: j < i ==> !CrashesAt(world, k, j)
  }

  predicate Unexpected(r: Result<Payload, Failure>) {
    match r
    case Ok(p) => !AllNamed(p.tools)
    case Err(e) => e == Other
  }

  lemma RegisterNothing(registry: map<string, Tool>)
    ensures Register(registry, []) == registry
  {
  }

  lemma DiscoverNothing(world: World, k: nat)
    ensures Discover(world, k, []) == Discovery(k, [], false)
  {
  }

  lemma DiscoverAt(world: World, k: nat, keys: seq<Endpoint>, i: nat)
    requires i < |keys|
    ensures var next := LastSend(world, k) + 1; var rest := Discover(world, next, keys[i + 1..]);
      Discover(world, k, keys[i..]) ==
        match CallResult(world, k)
        case Err(Other) => Discovery(next, [], true)
        case Err(_) => rest
        case Ok(p) =>
          if !AllNamed(p.tools) then Discovery(next, Named(p.tools, keys[i]), true)
          else rest.(tools := Named(p.tools, keys[i]) + rest.tools)
  {
    assert keys[i..][0] == keys[i] && keys[i..][1..] == keys[i + 1..];
  }

  // ---------------------------------------------------------------- who is asked

  /** These requests are attempts of one call. */
  ghost predicate OneCall(sent: seq<Request>, from: nat, to: nat, e: Endpoint, rpc: string) {
    from < to <= |sent| && forall i :: from <= i < to ==> sent[i].endpoint == e && sent[i].rpc == rpc
  }

  /** From the k-th on, what was sent is one call to each of the first n servers, in their order. */
  ghost predicate InTurn(sent: seq<Request>, world: World, k: nat, keys: seq<Endpoint>, rpc: string, n: nat)
    requires n <= |keys|
  {
    && |sent| == StartOf(world, k, n)
    && forall j: nat :: j < n ==> OneCall(sent, StartOf(world, k, j), StartOf(world, k, j + 1), keys[j], rpc)
  }

  lemma InTurnNobody(sent: seq<Request>, world: World, keys: seq<Endpoint>, rpc: string)
    ensures InTurn(sent, world, |sent|, keys, rpc, 0)
  {
  }

  lemma InTurnLength(sent: seq<Request>, world: World, k: nat, keys: seq<Endpoint>, rpc: string, n: nat)
    requires n <= |keys| && InTurn(sent, world, k, keys, rpc, n)
    ensures |sent| == StartOf(world, k, n)
  {
  }

  lemma InTurnNext(
    before: seq<Request>, after: seq<Request>, world: World, k: nat, keys: seq<Endpoint>, rpc: string, n: nat)
    requires n < |keys| && InTurn(before, world, k, keys, rpc, n)
    requires before <= after && |after| == LastSend(world, |before|) + 1
    requires forall i :: |before| <= i < |after| ==> after[i].endpoint == keys[n] && after[i].rpc == rpc
    ensures InTurn(after, world, k, keys, rpc, n + 1)
  {
    hide StartOf;
    StartOfNext(world, k, n);
    forall j: nat | j < n + 1
      ensures OneCall(after, StartOf(world, k, j), StartOf(world, k, j + 1), keys[j], rpc)
    {
      if j < n {
        assert OneCall(before, StartOf(world, k, j), StartOf(world, k, j + 1), keys[j], rpc);
      }
    }
  }

  /**
    What a call gives: the result of the last reply if it has no error member, a transport failure exactly if
    all three attempts met one, a protocol failure for an error object or for a reply with neither member.
  */
  lemma CallTells(world: World, k: nat)
    ensures var last := world(LastSend(world, k));
      && (forall p :: CallResult(world, k) == Ok(p) <==> last == Replied(None, Some(p)))
      && (CallResult(world, k) == Err(Transport) <==>
            world(k) == world(k + 1) == world(k + 2) == TransportFailed)
      && (CallResult(world, k) == Err(Protocol) <==>
            last.Replied? && if last.error.Some? then last.error.value.ErrorObject? else last.result == None)
      && (CallResult(world, k) == Err(Other) <==>
            last == Escaped || (last.Replied? && last.error == Some(NotAnObject)))
  {
  }

  // ---------------------------------------------------------------- the object

  class MCPToolClient {
    var transports: seq<Endpoint>
    var nextId: nat
    var registry: map<string, Tool>
    /** Every request handed to a transport, in order. */
    ghost var sent: seq<Request>

    /** The counter is one past the last id, ids count the requests, and registered endpoints are known. */
    ghost predicate Valid()
      reads this
    {
      && nextId == |sent| + 1
      && (forall i :: 0 <= i < |sent| ==> sent[i].id == i + 1 && sent[i].endpoint in transports)
      && Bound(registry, transports)
    }

    constructor (httpEndpoints: seq<Endpoint>, stdioCommands: seq<Endpoint>)
      ensures Valid() && sent == [] && registry == map[]
      ensures forall e :: e in transports <==> e in httpEndpoints || e in stdioCommands
      ensures forall i, j :: 0 <= i < j < |transports| ==> transports[i] != transports[j]
    {
      nextId, registry, sent := 1, map[], [];
      transports := [];
      new;
      var all := httpEndpoints + stdioCommands;
      for i := 0 to |all|
        invariant nextId == 1 && registry == map[] && sent == []
        invariant forall e :: e in transports <==> e in all[..i]
        invariant forall i, j :: 0 <= i < j < |transports| ==> transports[i] != transports[j]
      {
        if all[i] !in transports {
          transports := transports + [all[i]];
        }
      }
      assert all[..|all|] == all;
    }

    /** One call: an envelope with a fresh id for every attempt, three attempts at most. */
    method Call(world: World, endpoint: Endpoint, rpc: string) returns (r: Result<Payload, Failure>)
      requires Valid() && endpoint in transports
      modifies this`nextId, this`sent
      ensures Valid()
      ensures r == CallResult(world, |old(sent)|)
      ensures |sent| == LastSend(world, |old(sent)|) + 1 && old(sent) <= sent
      ensures forall i :: |old(sent)| <= i < |sent| ==> sent[i].endpoint == endpoint && sent[i].rpc == rpc
    {
      var attempt := 0;
      while true
        invariant 0 <= attempt < 3 && Valid() && |sent| == |old(sent)| + attempt && old(sent) <= sent
        invariant forall i :: |old(sent)| <= i < |sent| ==>
                    world(i).TransportFailed? && sent[i].endpoint == endpoint && sent[i].rpc == rpc
        decreases 3 - attempt
      {
        var outcome := world(nextId - 1);
        sent := sent + [Request(nextId, endpoint, rpc)];
        nextId := nextId + 1;
        attempt := attempt + 1;
        r := Unwrap(outcome);
        if r != Err(Transport) || attempt == 3 {
          LastSendUnique(world, |old(sent)|, |sent| - 1);
          return;
        }
      }
    }

    /** The servers are greeted in order, whatever the others do, up to the first whose answer escapes the loop. */
    method InitializeAll(world: World) returns (crashed: bool)
      requires Valid()
      modifies this`nextId, this`sent
      ensures Valid() && old(sent) <= sent && |sent| <= |old(sent)| + 3 * |transports|
      ensures crashed <==> exists i: nat :: i < |transports| && EscapesAt(world, |old(sent)|, i)
      ensures exists n: nat ::
        && n <= |transports| && InTurn(sent, world, |old(sent)|, transports, "initialize", n)
        && if crashed then n > 0 && FirstEscape(world, |old(sent)|, n - 1) else n == |transports|
    {
      hide LastSend, CallResult, StartOf, Bound, InTurn;
      crashed := false;
      InTurnNobody(sent, world, transports, "initialize");
      for i := 0 to |transports|
        invariant Valid() && old(sent) <= sent && |sent| <= |old(sent)| + 3 * i
        invariant InTurn(sent, world, |old(sent)|, transports, "initialize", i)
        invariant forall j: nat :: j < i ==> !EscapesAt(world, |old(sent)|, j)
      {
        ghost var before := sent;
        InTurnLength(before, world, |old(sent)|, transports, "initialize", i);
        var r := Call(world, transports[i], "initialize");
        InTurnNext(before, sent, world, |old(sent)|, transports, "initialize", i);
        if r == Err(Other) {
          assert EscapesAt(world, |old(sent)|, i);
          assert FirstEscape(world, |old(sent)|, i + 1 - 1);
          return true;
        }
      }
    }

    /** Failures of the two expected kinds are logged and skipped; anything else leaves the loop. */
    method DiscoverTools(world: World) returns (found: seq<Tool>, crashed: bool)
      requires Valid()
      modifies this`nextId, this`sent, this`registry
      ensures Valid() && old(sent) <= sent
      ensures var d := Discover(world, |old(sent)|, transports);
        && found == d.tools && crashed == d.crashed && |sent| == d.next
        && registry == Register(old(registry), d.tools)
      ensures exists n: nat ::
        && n <= |transports| && InTurn(sent, world, |old(sent)|, transports, "tools/list", n)
        && if crashed then n > 0 && FirstCrash(world, |old(sent)|, n - 1) else n == |transports|
    {
      hide Discover, Register, CallResult, Named, AllNamed, Bound, InTurn, StartOf;
      found, crashed := [], false;
      InTurnNobody(sent, world, transports, "tools/list");
      RegisterNothing(registry);
      assert transports[0..] == transports;
      for i := 0 to |transports|
        invariant Valid() && !crashed && old(sent) <= sent
        invariant InTurn(sent, world, |old(sent)|, transports, "tools/list", i)
        invariant forall j: nat :: j < i ==> !CrashesAt(world, |old(sent)|, j)
        invariant registry == Register(old(registry), found)
        invariant var d, e := Discover(world, |old(sent)|, transports), Discover(world, |sent|, transports[i..]);
          d == e.(tools := found + e.tools)
      {
        var key := transports[i];
        DiscoverAt(world, |sent|, transports, i);
        ghost var rest := Discover(world, LastSend(world, |sent|) + 1, transports[i + 1..]).tools;
        ghost var before := sent;
        InTurnLength(before, world, |old(sent)|, transports, "tools/list", i);
        var r := Call(world, key, "tools/list");
        InTurnNext(before, sent, world, |old(sent)|, transports, "tools/list", i);
        match r
        case Err(e) =>
          if e == Other {
            crashed := true;
            assert FirstCrash(world, |old(sent)|, i + 1 - 1);
            assert found + [] == found;
            return;
          }
        case Ok(p) =>
          var tools := Named(p.tools, key);
          NamedFrom(p.tools, key);
          RegisterConcat(old(registry), found, tools);
          RegisterBound(registry, tools, transports);
          registry := Register(registry, tools);
          assert found + (tools + rest) == found + tools + rest;
          found := found + tools;
          if !AllNamed(p.tools) {
            crashed := true;
            assert FirstCrash(world, |old(sent)|, i + 1 - 1);
            return;
          }
      }
      assert transports[|transports|..] == [];
      DiscoverNothing(world, |sent|);
      assert found + [] == found;
    }

    /** An unknown tool is refused without a request; a known one is called where it was discovered. */
    method CallTool(world: World, name: string) returns (r: Result<Payload, Failure>)
      requires Valid()
      modifies this`nextId, this`sent
      ensures Valid() && old(sent) <= sent
      ensures name !in registry ==> r == Err(Protocol) && sent == old(sent)
      ensures name in registry ==> r == CallResult(world, |old(sent)|) && |sent| == LastSend(world, |old(sent)|) + 1
      ensures |sent| <= |old(sent)| + 3
      ensures forall i :: |old(sent)| <= i < |sent| ==>
                sent[i].endpoint == registry[name].endpoint && sent[i].rpc == "tools/call"
    {
      if name !in registry {
        return Err(Protocol);
      }
      r := Call(world, registry[name].endpoint, "tools/call");
    }
  }

  /** Ids grow from request to request, retries included, so no two requests share one. */
  lemma IdsIncrease(c: MCPToolClient, i: nat, j: nat)
    requires c.Valid() && i < j < |c.sent|
    ensures c.sent[i].id < c.sent[j].id
  {
  }
}
