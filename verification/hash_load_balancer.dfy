/**
 * The source-address-hash load balancer for UDP: an append-only pool of
 * servers, and a selection rule that sends every connection to the server
 * at index `fnv1a32(client IP) mod pool size`.
 */
module Udp {
  import opened Wrappers
  import Fnv

  type byte = Fnv.byte

  /** A pool entry. `weight` is always 0 and no selection reads it. */
  datatype ServerHash<H> = ServerHash(handler: H, weight: int)

  /** The balancer: its servers, in the order they were added. */
  datatype HashLoadBalancer<H> = HashLoadBalancer(servers: seq<ServerHash<H>>)

  /** What `ServeUDP` does with a connection: nothing, or hand it to a handler. */
  datatype Dispatch<H> = NoDispatch | Dispatched(handler: H)

  /** The error `next` reports when the pool is empty. */
  const NoServersError := "no servers in the pool"

  /** A new balancer has no servers. */
  function NewHashLoadBalancer<H>(): (b: HashLoadBalancer<H>)
    ensures |b.servers| == 0
  {
    HashLoadBalancer([])
  }

  /** Appends a server holding `handler` with weight 0. */
  function AddServer<H>(b: HashLoadBalancer<H>, handler: H): (b': HashLoadBalancer<H>)
    ensures |b'.servers| == |b.servers| + 1
    ensures b'.servers[|b.servers|] == ServerHash(handler, 0)
    ensures forall i :: 0 <= i < |b.servers| ==> b'.servers[i] == b.servers[i]
  {
    HashLoadBalancer(b.servers + [ServerHash(handler, 0)])
  }

  /** Adds the handlers one by one, in order, as a configuration loop would. */
  function AddServers<H>(b: HashLoadBalancer<H>, handlers: seq<H>): HashLoadBalancer<H>
    decreases |handlers|
  {
    if |handlers| == 0 then b else AddServers(AddServer(b, handlers[0]), handlers[1..])
  }

  /**
   * Any number of `AddServer` calls only appends: earlier servers keep their
   * positions and the new ones follow in call order, each with weight 0.
   */
  lemma {:induction false} AddServersAppends<H>(b: HashLoadBalancer<H>, handlers: seq<H>)
    ensures |AddServers(b, handlers).servers| == |b.servers| + |handlers|
    ensures forall i :: 0 <= i < |b.servers| ==> AddServers(b, handlers).servers[i] == b.servers[i]
    ensures forall j :: 0 <= j < |handlers| ==>
              AddServers(b, handlers).servers[|b.servers| + j] == ServerHash(handlers[j], 0)
    decreases |handlers|
  {
    if |handlers| > 0 {
      var b1 := AddServer(b, handlers[0]);
      AddServersAppends(b1, handlers[1..]);
      forall j | 0 <= j < |handlers|
        ensures AddServers(b, handlers).servers[|b.servers| + j] == ServerHash(handlers[j], 0)
      {
        if j > 0 {
          assert handlers[1..][j - 1] == handlers[j];
        }
      }
    }
  }

  /**
   * A new balancer configured with `handlers` holds exactly those handlers,
   * in order, each with weight 0.
   */
  lemma Configured<H>(handlers: seq<H>)
    ensures var b := AddServers(NewHashLoadBalancer(), handlers);
            |b.servers| == |handlers| &&
            forall j :: 0 <= j < |handlers| ==> b.servers[j] == ServerHash(handlers[j], 0)
  {
    AddServersAppends(NewHashLoadBalancer<H>(), handlers);
  }

  /**
   * `hash`: a fresh FNV-1a 32-bit writer fed the bytes of `s` one at a
   * time, then asked for its sum.
   */
  method Hash(s: seq<byte>) returns (h: bv32)
    ensures h == Fnv.Sum32a(s)
  {
    h := Fnv.OffsetBasis32;
    var i := 0;
    while i < |s|
      invariant 0 <= i <= |s|
      invariant h == Fnv.Sum32a(s[..i])
    {
      Fnv.Sum32aSnoc(s[..i], s[i]);
      assert s[..i + 1] == s[..i] + [s[i]];
      h := Fnv.Step(h, s[i]);
      i := i + 1;
    }
    assert s[..i] == s;
  }

  /**
   * The pool index for client address `rAddr` in a pool of `n` servers:
   * the 32-bit digest, read as a non-negative integer, modulo `n`.
   */
  function Index(rAddr: seq<byte>, n: nat): (i: nat)
    requires n > 0
    ensures i < n
  {
    Fnv.Sum32a(rAddr) as int % n
  }

  /**
   * `next`: the server for client address `rAddr`, or the "no servers in
   * the pool" error when the pool is empty. The pool is a value, so it is
   * left as it was.
   */
  function Next<H>(b: HashLoadBalancer<H>, rAddr: seq<byte>): (r: Result<ServerHash<H>>)
    ensures r.Err? <==> |b.servers| == 0
    ensures r.Err? ==> r.error == NoServersError
    ensures r.Ok? ==> r.value in b.servers
    ensures r.Ok? ==> r.value == b.servers[Fnv.Sum32a(rAddr) as int % |b.servers|]
  {
    if |b.servers| == 0 then Err(NoServersError)
    else Ok(b.servers[Index(rAddr, |b.servers|)])
  }

  /**
   * Selection reads nothing of the address but its digest: two addresses
   * with the same FNV-1a sum go to the same server, and so does one address
   * asked twice of the same pool. This holds by construction, since `Next`
   * is a function of the pool and the digest; the lemma only states it.
   */
  lemma NextDependsOnlyOnDigest<H>(b: HashLoadBalancer<H>, a1: seq<byte>, a2: seq<byte>)
    requires Fnv.Sum32a(a1) == Fnv.Sum32a(a2)
    ensures Next(b, a1) == Next(b, a2)
  {
  }

  /**
   * After one more `AddServer`, an address goes to the old server at its new
   * index if that index is an old one, and otherwise to the new server: the
   * earlier entries stay where they were, only the modulus changes.
   */
  lemma NextAfterAddServer<H>(b: HashLoadBalancer<H>, handler: H, rAddr: seq<byte>)
    ensures var n := |b.servers|;
            var k := Fnv.Sum32a(rAddr) as int % (n + 1);
            Next(AddServer(b, handler), rAddr) ==
              Ok(if k < n then b.servers[k] else ServerHash(handler, 0))
  {
  }

  /** The client address string "10.0.0.5", as the bytes `IP.String()` yields. */
  const DottedQuad: seq<byte> := ['1' as byte, '0' as byte, '.' as byte, '0' as byte, '.' as byte, '0' as byte, '.' as byte, '5' as byte]

  /**
   * Adding a server can move an address that was already routed: with two
   * servers "10.0.0.5" (digest 0xdabeb841) goes to the second, with a third
   * added it goes to the first.
   */
  lemma AddServerCanRemap<H>(b: HashLoadBalancer<H>, handler: H)
    requires |b.servers| == 2
    ensures Next(b, DottedQuad) == Ok(b.servers[1])
    ensures Next(AddServer(b, handler), DottedQuad) == Ok(b.servers[0])
  {
    Fnv.DottedQuadDigest();
  }

  /**
   * `ServeUDP`'s dispatch decision: an empty pool means return without
   * dispatching; otherwise the connection goes to the handler `next` picks.
   */
  function ServeUDP<H>(b: HashLoadBalancer<H>, rAddr: seq<byte>): (d: Dispatch<H>)
    ensures d.NoDispatch? <==> |b.servers| == 0
    ensures d.Dispatched? ==> Next(b, rAddr).Ok? && d.handler == Next(b, rAddr).value.handler
    ensures d.Dispatched? ==> d.handler == b.servers[Fnv.Sum32a(rAddr) as int % |b.servers|].handler
  {
    if |b.servers| == 0 then NoDispatch
    else
      match Next(b, rAddr)
      case Ok(server) => Dispatched(server.handler)
  }

  /**
   * Three servers H0, H1, H2 added to a new balancer: a connection from
   * "10.0.0.5" (FNV-1a digest 0xdabeb841, which is 0 modulo 3) is handed to H0.
   */
  lemma ServeThreeServers<H>(h0: H, h1: H, h2: H)
    ensures ServeUDP(AddServers(NewHashLoadBalancer(), [h0, h1, h2]), DottedQuad) == Dispatched(h0)
  {
    var b := AddServers(NewHashLoadBalancer(), [h0, h1, h2]);
    Configured([h0, h1, h2]);
    assert b.servers[0] == ServerHash(h0, 0);
    Fnv.DottedQuadDigest();
    assert Index(DottedQuad, 3) == 0;
  }
}
