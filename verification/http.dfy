/** Client selection: the HTTP client factory a backend gets, chosen from its
    cache configuration. */
module ClientSelection {
  import opened Wrappers
  import opened Values
  import opened CacheConfig
  import opened RedisAdapter

  /** An HTTP client as a factory hands it out. */
  datatype HttpClient =
      /** The one package-level client over the in-memory caching transport. */
    | SharedMemoryClient
      /** A client made afresh on each call, its caching transport storing
          through `cache`. */
    | RedisCachingClient(cache: RedisCache)
      /** Whatever the host framework's own factory hands out. */
    | FrameworkDefaultClient

  /** A client factory. A Redis factory holds the one Redis client built when
      the factory was made, and the ttl for the caches it builds. */
  datatype ClientFactory =
    | MemoryFactory
    | RedisFactory(client: Client, ttl: Duration)
    | DefaultFactory

  /** Calling a factory; the request context it receives plays no part. */
  function Produce(f: ClientFactory): (h: HttpClient)
    ensures h == SharedMemoryClient <==> f.MemoryFactory?
    ensures h == FrameworkDefaultClient <==> f.DefaultFactory?
    ensures h.RedisCachingClient? <==> f.RedisFactory?
    ensures h.RedisCachingClient? ==> h.cache.client == f.client && h.cache.ttl == f.ttl
  {
    match f
    case MemoryFactory => SharedMemoryClient
    case RedisFactory(r, ttl) => RedisCachingClient(NewRedisCache(r, ttl))
    case DefaultFactory => FrameworkDefaultClient
  }

  /** `NewHTTPClient`: the framework default when the configuration is
      rejected; the shared memory client for type `memory`; a Redis-backed
      client for type `redis`, single-node or cluster by mode, with the
      configured ttl; the framework default for any other accepted type. */
  function NewHTTPClient(extra: Object, parse: DurationParser): (f: ClientFactory)
    requires WellTyped(extra)
    ensures ConfigGetter(extra, parse).Failure? ==> f == DefaultFactory
    ensures ConfigGetter(extra, parse).Success? ==>
              var c := ConfigGetter(extra, parse).value;
              && (f.MemoryFactory? <==> c.typ == BackendMemory)
              && (f.RedisFactory? <==> c.typ == BackendRedis)
              && (f.RedisFactory? ==> f.ttl == c.redis.ttl)
              && (f.RedisFactory? && c.redis.mode == RedisModeRedis ==> f.client == NewRedis(c.redis))
              && (f.RedisFactory? && c.redis.mode == RedisModeCluster ==> f.client == NewRedisCluster(c.redis))
  {
    match ConfigGetter(extra, parse)
    case Failure(_) => DefaultFactory
    case Success(c) =>
      if c.typ == BackendMemory then MemoryFactory
      else if c.typ == BackendRedis then
        var r :=
          if c.redis.mode == RedisModeRedis then NewRedis(c.redis)
          else if c.redis.mode == RedisModeCluster then NewRedisCluster(c.redis)
          else NilClient;
        RedisFactory(r, c.redis.ttl)
      else DefaultFactory
  }

  /** The inner mode switch never leaves the Redis client unset: a
      configuration accepted with type `redis` always has one of the two
      handled modes. The caches the factory builds are therefore usable, and
      expire writes after the `ttl` given in the `redis` block, one hour when
      none is given. */
  lemma RedisClientAlwaysSet(extra: Object, parse: DurationParser)
    requires WellTyped(extra)
    ensures NewHTTPClient(extra, parse).RedisFactory? ==>
              && NewHTTPClient(extra, parse).client != NilClient
              && var ns := extra[Namespace].entries;
                 HasRedisBlock(ns) && TypeOf(ns) == BackendRedis
                 && DurationFieldRead(ns[BackendRedis].entries, "ttl", RedisDefaultTtl, parse,
                                      NewHTTPClient(extra, parse).ttl)
  {
  }

  /** Which client a backend ends up with, read off its raw extra
      configuration: the shared memory client exactly when the configuration
      is accepted with type `memory` (the default), a Redis-backed one exactly
      when it is accepted with type `redis`. */
  lemma ProducedClient(extra: Object, parse: DurationParser)
    requires WellTyped(extra)
    ensures var h := Produce(NewHTTPClient(extra, parse));
            && (h == SharedMemoryClient <==>
                  ConfigGetter(extra, parse).Success? && TypeOf(extra[Namespace].entries) == BackendMemory)
            && (h.RedisCachingClient? <==>
                  ConfigGetter(extra, parse).Success? && TypeOf(extra[Namespace].entries) == BackendRedis)
  {
  }
}
