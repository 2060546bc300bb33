/** The Redis side of the cache: building a single-node or cluster client
    from the settings, and the adapter that turns the HTTP cache's
    get/set/delete calls into client commands. The client itself is abstract:
    what the adapter sends it is a command trace, and what a read returns is
    supplied as a reply. */
module RedisAdapter {
  import opened Wrappers
  import opened Values
  import opened CacheConfig

  newtype byte = x: int | 0 <= x < 256

  type Bytes = seq<byte>

  /** The connection settings both client kinds take. */
  datatype PoolOptions = PoolOptions(
    dialTimeout: Duration,
    readTimeout: Duration,
    writeTimeout: Duration,
    maxRetries: int,
    idleTimeout: Duration,
    idleCheckFrequency: Duration,
    poolSize: int,
    poolTimeout: Duration)

  /** A Redis client handle. `NilClient` is the interface's zero value. */
  datatype Client =
    | NilClient
    | SingleNodeClient(addr: string, pool: PoolOptions)
    | ClusterClient(addrs: seq<string>, pool: PoolOptions)

  /** The pool settings carried in a configuration. */
  function PoolOf(cfg: RedisConfig): PoolOptions
  {
    PoolOptions(cfg.dialTimeout, cfg.readTimeout, cfg.writeTimeout, cfg.maxRetries,
                cfg.idleTimeout, cfg.idleCheckFrequency, cfg.poolSize, cfg.poolTimeout)
  }

  /** The configuration a client was built from, given what the client does
      not keep: the mode and the ttl. */
  function ConfigOf(addr: string, pool: PoolOptions, mode: string, ttl: Duration): RedisConfig
  {
    RedisConfig(mode, addr, pool.dialTimeout, pool.readTimeout, pool.writeTimeout, pool.maxRetries,
                pool.idleTimeout, pool.idleCheckFrequency, pool.poolSize, pool.poolTimeout, ttl)
  }

  /** A single-node client on the configured address with the configured
      pool settings. */
  function NewRedis(cfg: RedisConfig): (c: Client)
    ensures c.SingleNodeClient?
    ensures c.addr == cfg.address
    ensures ConfigOf(c.addr, c.pool, cfg.mode, cfg.ttl) == cfg
  {
    SingleNodeClient(cfg.address, PoolOf(cfg))
  }

  /** A cluster client whose seed list is the configured address alone, with
      the configured pool settings. */
  function NewRedisCluster(cfg: RedisConfig): (c: Client)
    ensures c.ClusterClient?
    ensures c.addrs == [cfg.address]
    ensures ConfigOf(c.addrs[0], c.pool, cfg.mode, cfg.ttl) == cfg
  {
    ClusterClient([cfg.address], PoolOf(cfg))
  }

  /** Neither client kind depends on the mode or the ttl: two configurations
      that differ only there build the same client. */
  lemma ClientsIgnoreModeAndTtl(cfg: RedisConfig, mode: string, ttl: Duration)
    ensures NewRedis(cfg.(mode := mode, ttl := ttl)) == NewRedis(cfg)
    ensures NewRedisCluster(cfg.(mode := mode, ttl := ttl)) == NewRedisCluster(cfg)
  {
  }

  /** The adapter: a client and the expiration applied to every write. */
  datatype RedisCache = RedisCache(client: Client, ttl: Duration)

  function NewRedisCache(client: Client, ttl: Duration): RedisCache
  {
    RedisCache(client, ttl)
  }

  /** A command sent to the Redis client. */
  datatype Command =
    | GetCmd(key: string)
    | SetCmd(key: string, value: Bytes, expiration: Duration)
    | DelCmd(key: string)

  /** The outcome of reading a GET reply as bytes: the bytes, or any error
      (a missing key, a connection failure, a timeout, ...). */
  datatype Reply = Read(bytes: Bytes) | ReadError(message: string)

  /** What the HTTP cache sees of a lookup: `(responseBytes, ok)`. */
  datatype Lookup = Lookup(bytes: Bytes, ok: bool)

  /** A call the HTTP cache makes on the adapter. */
  datatype CacheCall =
    | CallGet(key: string)
    | CallSet(key: string, value: Bytes)
    | CallDelete(key: string)

  /** The cache call a command carries out; the expiration is the only part
      of a command a call does not determine. */
  function CallOf(cmd: Command): CacheCall
  {
    match cmd
    case GetCmd(k) => CallGet(k)
    case SetCmd(k, v, _) => CallSet(k, v)
    case DelCmd(k) => CallDelete(k)
  }

  /** Key/value contents, ignoring expiry. */
  type Store = map<string, Bytes>

  /** A reference Redis server: SET writes the key, DEL removes it, GET leaves
      the contents alone. */
  function Apply(store: Store, cmd: Command): Store
  {
    match cmd
    case GetCmd(_) => store
    case SetCmd(k, v, _) => store[k := v]
    case DelCmd(k) => store - {k}
  }

  /** The contents a reference server holds after a command trace. */
  function StoreAfter(trace: seq<Command>): Store
  {
    if |trace| == 0 then map[] else Apply(StoreAfter(trace[..|trace| - 1]), trace[|trace| - 1])
  }

  /** The reference HTTP cache: what a sequence of calls leaves stored, the
      last value set under each key that has not been deleted since. */
  function CacheAfter(calls: seq<CacheCall>): Store
  {
    if |calls| == 0 then map[]
    else
      var before := CacheAfter(calls[..|calls| - 1]);
      match calls[|calls| - 1]
      case CallGet(_) => before
      case CallSet(k, v) => before[k := v]
      case CallDelete(k) => before - {k}
  }

  /** The reply a reference server gives to a GET of `key`. */
  function ReplyFrom(store: Store, key: string): Reply
  {
    if key in store then Read(store[key]) else ReadError("redis: nil")
  }

  /** What a lookup of `key` must report against stored contents. */
  function Expected(store: Store, key: string): Lookup
  {
    if key in store then Lookup(store[key], true) else Lookup([], false)
  }

  /** `Get`: one GET of the key; a failed read of any kind is "not found"
      with empty bytes, a successful one hands the bytes over. Against a
      reference server the lookup reports exactly what is stored. */
  function Get(c: RedisCache, key: string, reply: Reply): (r: (Lookup, seq<Command>))
    requires c.client != NilClient
    ensures |r.1| == 1 && CallOf(r.1[0]) == CallGet(key)
    ensures forall store :: Apply(store, r.1[0]) == store
    ensures r.0.ok <==> reply.Read?
    ensures r.0.ok ==> r.0.bytes == reply.bytes
    ensures !r.0.ok ==> r.0.bytes == []
    ensures forall store :: reply == ReplyFrom(store, key) ==> r.0 == Expected(store, key)
  {
    var lookup :=
      match reply
      case ReadError(_) => Lookup([], false)
      case Read(rb) => Lookup(rb, true);
    (lookup, [GetCmd(key)])
  }

  /** `Set`: one command, carrying out this set, expiring after the cache's
      ttl; a reference server then holds the value under the key. */
  function Set(c: RedisCache, key: string, value: Bytes): (trace: seq<Command>)
    requires c.client != NilClient
    ensures |trace| == 1 && CallOf(trace[0]) == CallSet(key, value)
    ensures trace[0].SetCmd? && trace[0].expiration == c.ttl
    ensures forall store :: Apply(store, trace[0]) == store[key := value]
  {
    [SetCmd(key, value, c.ttl)]
  }

  /** `Delete`: one command, carrying out this delete; a reference server
      then no longer holds the key. */
  function Delete(c: RedisCache, key: string): (trace: seq<Command>)
    requires c.client != NilClient
    ensures |trace| == 1 && CallOf(trace[0]) == CallDelete(key)
    ensures forall store :: Apply(store, trace[0]) == store - {key}
  {
    [DelCmd(key)]
  }

  /** The ttl a cache is built with is the expiration of every write it
      issues. */
  lemma NewRedisCacheWritesWithTtl(client: Client, ttl: Duration, key: string, value: Bytes)
    requires client != NilClient
    ensures Set(NewRedisCache(client, ttl), key, value)[0].expiration == ttl
  {
  }

  /** What a get reports for a reply: found with the bytes read, or not
      found with empty bytes after any read error. */
  predicate Reports(reply: Reply, lookup: Lookup)
  {
    && (lookup.ok <==> reply.Read?)
    && lookup.bytes == (if reply.Read? then reply.bytes else [])
  }

  /** The adapter driven by a sequence of calls, `replies[i]` being what the
      client answers if call `i` is a get. Every call issues exactly one
      command that carries it out, in call order, and nothing else; every
      write carries the cache's ttl; exactly the gets report a lookup, and
      each reports its reply. After each prefix of the calls, a reference
      server fed the commands so far holds exactly what the reference cache
      holds; so when the server answers a get from what it holds, the get
      reports the last value set under its key, and "not found" after a
      delete or when the key was never set. */
  method RunSession(c: RedisCache, calls: seq<CacheCall>, replies: seq<Reply>)
    returns (trace: seq<Command>, lookups: seq<Option<Lookup>>)
    requires c.client != NilClient
    requires |replies| == |calls|
    ensures |trace| == |calls| && |lookups| == |calls|
    ensures forall i :: 0 <= i < |calls| ==> CallOf(trace[i]) == calls[i]
    ensures forall i :: 0 <= i < |trace| && trace[i].SetCmd? ==> trace[i].expiration == c.ttl
    ensures forall i :: 0 <= i <= |calls| ==> StoreAfter(trace[..i]) == CacheAfter(calls[..i])
    ensures forall i :: 0 <= i < |calls| ==> (lookups[i].Some? <==> calls[i].CallGet?)
    ensures forall i :: 0 <= i < |calls| && lookups[i].Some? ==> Reports(replies[i], lookups[i].value)
    ensures forall i :: 0 <= i < |calls| && lookups[i].Some? &&
                        replies[i] == ReplyFrom(StoreAfter(trace[..i]), calls[i].key) ==>
              lookups[i].value == Expected(CacheAfter(calls[..i]), calls[i].key)
  {
    trace := [];
    lookups := [];
    var i := 0;
    while i < |calls|
      invariant 0 <= i <= |calls|
      invariant |trace| == i && |lookups| == i
      invariant forall j :: 0 <= j < i ==> CallOf(trace[j]) == calls[j]
      invariant forall j :: 0 <= j < i && trace[j].SetCmd? ==> trace[j].expiration == c.ttl
      invariant forall j :: 0 <= j < i ==> (lookups[j].Some? <==> calls[j].CallGet?)
      invariant forall j :: 0 <= j < i && lookups[j].Some? ==> Reports(replies[j], lookups[j].value)
    {
      var issued: seq<Command>;
      var lookup: Option<Lookup> := None;
      match calls[i] {
        case CallGet(k) =>
          var (l, t) := Get(c, k, replies[i]);
          lookup, issued := Some(l), t;
        case CallSet(k, v) =>
          issued := Set(c, k, v);
        case CallDelete(k) =>
          issued := Delete(c, k);
      }
      trace := trace + issued;
      lookups := lookups + [lookup];
      i := i + 1;
    }
    TraceCarriesOutCalls(trace, calls);
  }

  /** A trace whose commands carry out the calls one for one leaves a
      reference server, after every prefix, holding what the reference cache
      holds after the same prefix of calls. */
  lemma {:induction false} TraceCarriesOutCalls(trace: seq<Command>, calls: seq<CacheCall>)
    requires |trace| == |calls|
    requires forall i :: 0 <= i < |calls| ==> CallOf(trace[i]) == calls[i]
    ensures forall i :: 0 <= i <= |calls| ==> StoreAfter(trace[..i]) == CacheAfter(calls[..i])
  {
    forall i | 0 <= i <= |calls|
      ensures StoreAfter(trace[..i]) == CacheAfter(calls[..i])
    {
      PrefixAgrees(trace, calls, i);
    }
  }

  /** The agreement of `TraceCarriesOutCalls` for the prefix of length `n`. */
  lemma {:induction false} PrefixAgrees(trace: seq<Command>, calls: seq<CacheCall>, n: nat)
    requires n <= |trace| == |calls|
    requires forall i :: 0 <= i < |calls| ==> CallOf(trace[i]) == calls[i]
    ensures StoreAfter(trace[..n]) == CacheAfter(calls[..n])
  {
    if n > 0 {
      PrefixAgrees(trace, calls, n - 1);
      assert trace[..n][..n - 1] == trace[..n - 1];
      assert calls[..n][..n - 1] == calls[..n - 1];
      assert CallOf(trace[n - 1]) == calls[n - 1];
    }
  }
}
