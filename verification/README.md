# krakend-httpcache: configuration, client selection and the Redis cache adapter

This project models, in Dafny, the decision logic of `krakend-httpcache`, the
HTTP response cache plug-in for the KrakenD/Lura API gateway:

- **`CacheConfig`** (`config.dfy`): `ConfigGetter` reads the plug-in's
  namespace out of a backend's extra configuration (a `map[string]interface{}`,
  modelled as `map<string, Value>`). It defaults the backend `type` to
  `memory`. It validates an optional `redis` block: the mode must be `redis`
  or `rediscluster`, and an address is required. Every other Redis field falls
  back to its documented default. The four error kinds and their texts are
  modelled too. `Render` writes a configuration back out, and
  `RenderRoundTrip` proves that the reader recovers every configuration it can
  produce.
- **`RedisAdapter`** (`redis.dfy`): `NewRedis` and `NewRedisCluster` copy the
  settings into single-node or cluster client options. `RedisCache`'s `Get`,
  `Set` and `Delete` turn into client commands. The Redis client is abstract:
  the model records the commands the adapter sends it as a trace, and takes
  the outcome of a read as an input. `RunSession` drives the adapter with any
  sequence of calls. It is checked against a reference Redis server, where
  SET writes and DEL removes, and against a reference key/value cache.
- **`ClientSelection`** (`http.dfy`): `NewHTTPClient` chooses between the
  shared in-memory caching client, a Redis-backed client (single-node or
  cluster) and the framework's default factory.
- **`Values`** and **`Wrappers`**: dynamically typed configuration values,
  durations in nanoseconds, and the `Option`/`Result` datatypes.

Durations are integers counting nanoseconds, as Go's `time.Duration` does.
`time.ParseDuration` is a parameter `parse: string -> Option<Duration>`. Go's
parser returns zero with every error, and the reader discards that error, so
an unparsable duration string yields `0` (`ParsedOrZero`). Go's type assertions
would panic on a value of the wrong dynamic type. They are preconditions
instead (`WellTyped`, `NamespaceWellTyped`, `BlockWellTyped`), and each one
covers only the assertions the reader actually reaches. The `mode` value is
compared as an `interface{}`, so a non-string mode is an invalid value, not a
panic. A `redis` entry that is not a map counts as absent.

## Model

| member | source | states |
|---|---|---|
| CacheConfig.Message | config.go:30-37 | The no-config and mapping errors have their fixed texts; a missing-field or invalid-value text is its fixed prefix, then exactly the field name, then `]` |
| CacheConfig.MessageInjective | config.go:30-37 | Two errors with the same text are the same error, field included |
| CacheConfig.GetRequired | config.go:133-138 | Fails exactly when the key is absent, with the missing-field error naming that key; otherwise yields the stored value |
| CacheConfig.GetWithDefault | config.go:122-131 | Returns `(d, true)` exactly when the key is absent and `(cfg[k], false)` when it is present |
| CacheConfig.GetDuration | config.go:108-115 | An absent key gives the default; a present key gives its parsed string, or 0 when parsing fails |
| CacheConfig.GetInt | config.go:117-120 | An absent key gives the default; a present key gives its integer |
| CacheConfig.ReadRedisBlock | config.go:77-101 | No mode gives missing-field `mode`; a mode other than `redis`/`rediscluster` gives invalid-value `mode`, whatever the address; a valid mode with no address gives missing-field `address`; it succeeds exactly when none of these apply, and then mode and address are as given and each of the nine optional fields is as given or its default constant |
| CacheConfig.ReadNamespace | config.go:69-105 | The type is the given string, unchecked, or `memory` when absent; a map-valued `redis` block is validated whatever the type and decides success and the error; with no block, type `redis` gives missing-field `redis` and any other type succeeds with all-zero Redis settings |
| CacheConfig.ConfigGetter | config.go:58-106 | An absent namespace gives `WarnNoConfig`; a non-map namespace gives `ErrMappingConfig`; otherwise the namespace object decides; every accepted configuration has a valid mode or, under a type other than `redis`, all-zero Redis settings |
| CacheConfig.BlockRoundTrip | config.go:77-101 | The shortest block for a valid-mode configuration, which leaves out every field holding its default, is accepted and read back as that configuration |
| CacheConfig.StatedBlockReadBack | config.go:88-101 | Any block stating mode and address and writing each optional field only when it differs from its default passes validation and is read back exactly: stated fields as written, left-out fields restored to their default constants |
| CacheConfig.RenderRoundTrip | config.go:58-106 | Every configuration the reader can produce is read back exactly from its shortest rendering, so the reader loses nothing, and exactly the `Acceptable` configurations are produced |
| RedisAdapter.NewRedis | redis.go:17-29 | Builds a single-node client on the configured address; address and the eight pool settings are passed through unchanged, so the configuration is recoverable except for mode and ttl |
| RedisAdapter.NewRedisCluster | redis.go:31-43 | Builds a cluster client whose seed list is exactly the configured address; the pool settings are passed through unchanged |
| RedisAdapter.ClientsIgnoreModeAndTtl | redis.go:17-43 | Neither client depends on the mode or the ttl, so the ttl is never passed to the Redis client |
| RedisAdapter.NewRedisCacheWritesWithTtl | redis.go:54-72 | A cache built by `NewRedisCache` over a client with a ttl issues every SET with exactly that ttl as expiration |
| RedisAdapter.Get | redis.go:61-68 | Issues one command, which carries out this get and leaves a reference server's contents alone; a read error of any kind gives empty bytes and not-found; a successful read gives its bytes and found; against a reference server the lookup reports exactly what is stored under the key |
| RedisAdapter.Set | redis.go:70-72 | Issues one command, which carries out this set with the cache's ttl as expiration; a reference server then holds the value under the key |
| RedisAdapter.Delete | redis.go:74-76 | Issues one command, which carries out this delete; a reference server then no longer holds the key |
| RedisAdapter.RunSession | redis.go:54-76 | Over any sequence of calls: one command per call, in order, from which each call is recovered; every SET carries the cache's ttl; exactly the gets report, each its reply with failures as not-found; after every prefix, a reference server fed the commands holds what the reference cache holds, so a get answered from the server reports the last value set under its key and not-found after a delete or when never set |
| RedisAdapter.TraceCarriesOutCalls | redis.go:61-76 | A trace whose commands carry out the calls one for one leaves a reference server, after every prefix, holding exactly what the reference cache holds after the same calls |
| ClientSelection.Produce | http.go:26-40 | A memory factory always hands out the one shared memory client and is the only factory that does; a Redis factory hands out a client whose cache holds the factory's Redis client and ttl |
| ClientSelection.NewHTTPClient | http.go:20-44 | A rejected configuration gives the framework default; an accepted one gives the memory factory exactly for type `memory` and a Redis factory exactly for type `redis`; the Redis factory uses a single-node client for mode `redis` and a cluster client for mode `rediscluster`, with the configured ttl; other types fall through to the default |
| ClientSelection.RedisClientAlwaysSet | http.go:30-40 | A Redis factory never holds a nil client, because type `redis` is only accepted with a valid mode; its ttl is the block's `ttl`, parsed, or one hour when none is given |
| ClientSelection.ProducedClient | http.go:20-44 | From the raw configuration: the shared memory client exactly when the configuration is accepted with type `memory`, a Redis-backed client exactly when it is accepted with type `redis` |

## Left out

- Redis networking, the wire protocol, connection pooling and key expiry belong to the Redis client library. The client is only a trace of commands plus an abstract read outcome (`Reply`). The reference server (`Apply`, `StoreAfter`) keeps key/value contents only and ignores expiry. Go's `redis.Nil` "key not found" reply is one of the read errors.
- `NewRedisCacheTransport` and the package-level `memTransport`/`memClient` wrap the third-party HTTP caching transport. HTTP caching semantics are not modelled; a client records only which cache its transport stores through.
- `BackendFactory` only composes `NewHTTPClient` with the host framework's `CustomHTTPProxyFactory`. That proxy layer is not part of this model.
- `time.ParseDuration` is an abstract parameter. Its grammar is not modelled, only the fact that its errors are discarded and leave zero.
- Calling `Get`, `Set` or `Delete` on a cache whose client is nil panics in the source. Here a non-nil client is a precondition of RedisAdapter.Get, RedisAdapter.Set and RedisAdapter.Delete. ClientSelection.RedisClientAlwaysSet shows that `NewHTTPClient` never builds such a cache.
- Go type-assertion panics, such as a non-string `type` or `address`, a non-string duration, or a non-`int` integer field, are preconditions rather than modelled failures.
- CacheConfig.GetInt: a configuration decoded from JSON carries numbers as `float64`, and the `int` assertion would then panic. `VInt` stands for a Go `int` only.
- The per-call `context.Context` is ignored, as the source ignores it. Reference identity is not modelled: `SharedMemoryClient` stands for the one `&memClient`, while the source builds a new `http.Client` on each call to a Redis factory.
- Integer widths: durations are Go `int64` and the integer fields are Go `int`. The model uses unbounded integers because the code does no arithmetic on them; only the default constants are computed, and they fit easily.
