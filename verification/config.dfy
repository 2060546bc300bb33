/** The cache configuration: extraction of the `krakend-httpcache` namespace
    from a backend's extra configuration, validation of the optional `redis`
    block and defaulting of every optional field. */
module CacheConfig {
  import opened Wrappers
  import opened Values

  const Namespace: string := "github.com/devopsfaith/krakend-httpcache"

  const BackendMemory: string := "memory"
  const BackendRedis: string := "redis"

  const RedisModeRedis: string := "redis"
  const RedisModeCluster: string := "rediscluster"

  const RedisDefaultDialTimeout: Duration := 100 * Millisecond
  const RedisDefaultReadTimeout: Duration := 100 * Millisecond
  const RedisDefaultWriteTimeout: Duration := 200 * Millisecond
  const RedisDefaultMaxRetries: int := 0
  const RedisDefaultIdleTimeout: Duration := 5 * Minute
  const RedisDefaultIdleCheckFrequency: Duration := 1 * Minute
  const RedisDefaultPoolSize: int := 10
  const RedisDefaultPoolTimeout: Duration := 10 * Millisecond
  const RedisDefaultTtl: Duration := 1 * Hour

  /** Keys of the `redis` block read as durations and as integers. */
  const DurationKeys: set<string> :=
    {"dialTimeout", "readTimeout", "writeTimeout", "idleTimeout",
     "idleCheckFrequency", "poolTimeout", "ttl"}
  const IntKeys: set<string> := {"maxRetries", "poolSize"}

  /** The four errors the configuration reader can report. */
  datatype Error =
    | WarnNoConfig
    | ErrMappingConfig
    | ErrMissingRequired(field: string)
    | ErrInvalidValue(field: string)

  /** The component name every error text carries. */
  const Component: string := "krakend-httpcache"
  const NoConfigText: string := "no config found for " + Component
  const MappingText: string := "could not map " + Component + " config"
  const MissingPrefix: string := "Missing required " + Component + " config field ["
  const InvalidPrefix: string := "Invalid value for " + Component + " config field ["

  /** The text of each error. Distinct errors have distinct texts, and the
      field of a field error sits between the fixed prefix and the closing
      bracket. */
  function Message(e: Error): (m: string)
    ensures e.WarnNoConfig? ==> m == NoConfigText
    ensures e.ErrMappingConfig? ==> m == MappingText
    ensures e.ErrMissingRequired? ==>
      && |m| == |MissingPrefix| + |e.field| + 1
      && m[..|MissingPrefix|] == MissingPrefix
      && m[|MissingPrefix|..|m| - 1] == e.field
      && m[|m| - 1] == ']'
    ensures e.ErrInvalidValue? ==>
      && |m| == |InvalidPrefix| + |e.field| + 1
      && m[..|InvalidPrefix|] == InvalidPrefix
      && m[|InvalidPrefix|..|m| - 1] == e.field
      && m[|m| - 1] == ']'
  {
    match e
    case WarnNoConfig => NoConfigText
    case ErrMappingConfig => MappingText
    case ErrMissingRequired(f) => MissingPrefix + f + "]"
    case ErrInvalidValue(f) => InvalidPrefix + f + "]"
  }

  /** Two errors with the same text are the same error: a caller that only
      sees the text can tell which check failed and on which field. */
  lemma MessageInjective(e1: Error, e2: Error)
    requires Message(e1) == Message(e2)
    ensures e1 == e2
  {
    var m := Message(e1);
    assert m[0] == FirstOf(e1) by {
      if e1.ErrMissingRequired? {
        assert m[0] == m[..|MissingPrefix|][0];
      } else if e1.ErrInvalidValue? {
        assert m[0] == m[..|InvalidPrefix|][0];
      }
    }
    assert Message(e2)[0] == FirstOf(e2) by {
      var m2 := Message(e2);
      if e2.ErrMissingRequired? {
        assert m2[0] == m2[..|MissingPrefix|][0];
      } else if e2.ErrInvalidValue? {
        assert m2[0] == m2[..|InvalidPrefix|][0];
      }
    }
  }

  /** The leading character of each error's text, which tells the four
      kinds apart. */
  function FirstOf(e: Error): char
  {
    match e
    case WarnNoConfig => 'n'
    case ErrMappingConfig => 'c'
    case ErrMissingRequired(_) => 'M'
    case ErrInvalidValue(_) => 'I'
  }

  /** The Redis connection settings; all zero when no `redis` block is given. */
  datatype RedisConfig = RedisConfig(
    mode: string,
    address: string,
    dialTimeout: Duration,
    readTimeout: Duration,
    writeTimeout: Duration,
    maxRetries: int,
    idleTimeout: Duration,
    idleCheckFrequency: Duration,
    poolSize: int,
    poolTimeout: Duration,
    ttl: Duration)

  const ZeroRedisConfig: RedisConfig := RedisConfig("", "", 0, 0, 0, 0, 0, 0, 0, 0, 0)

  datatype Config = Config(typ: string, redis: RedisConfig)

  /** `time.ParseDuration`, left abstract: `None` is a parse error. */
  type DurationParser = string -> Option<Duration>

  /** The duration a parse yields when its error is discarded: Go's parser
      returns zero alongside every error. */
  function ParsedOrZero(parse: DurationParser, s: string): Duration
  {
    match parse(s)
    case Some(d) => d
    case None => 0
  }

  predicate IsModeValue(v: Value)
  {
    v == VString(RedisModeRedis) || v == VString(RedisModeCluster)
  }

  /** Every type assertion the reader reaches inside a `redis` block succeeds.
      Assertions are only reached once the mode is valid and an address is
      present. */
  predicate BlockWellTyped(block: Object)
  {
    "mode" in block && IsModeValue(block["mode"]) && "address" in block ==>
      && block["address"].VString?
      && (forall k :: k in DurationKeys && k in block ==> block[k].VString?)
      && (forall k :: k in IntKeys && k in block ==> block[k].VInt?)
  }

  /** Every type assertion the reader reaches in a namespace object succeeds. */
  predicate NamespaceWellTyped(ns: Object)
  {
    && ("type" in ns ==> ns["type"].VString?)
    && (BackendRedis in ns && ns[BackendRedis].VMap? ==> BlockWellTyped(ns[BackendRedis].entries))
  }

  /** Every type assertion the reader reaches in a backend's extra
      configuration succeeds. */
  predicate WellTyped(extra: Object)
  {
    Namespace in extra && extra[Namespace].VMap? ==> NamespaceWellTyped(extra[Namespace].entries)
  }

  /** A required key: its value, or the missing-field error naming it. */
  function GetRequired(cfg: Object, k: string): (r: Result<Value, Error>)
    ensures r.Success? <==> k in cfg
    ensures r.Success? ==> r.value == cfg[k]
    ensures r.Failure? ==> r.error == ErrMissingRequired(k)
  {
    if k in cfg then Success(cfg[k]) else Failure(ErrMissingRequired(k))
  }

  /** An optional key: the value and `false` when present, the default and
      `true` when absent. */
  function GetWithDefault(cfg: Object, k: string, d: Value): (r: (Value, bool))
    ensures r.1 <==> k !in cfg
    ensures r.1 ==> r.0 == d
    ensures !r.1 ==> r.0 == cfg[k]
  {
    match GetRequired(cfg, k)
    case Failure(_) => (d, true)
    case Success(v) => (v, false)
  }

  /** What an optional duration field must hold after reading. */
  predicate DurationFieldRead(cfg: Object, k: string, d: Duration, parse: DurationParser, v: Duration)
    requires k in cfg ==> cfg[k].VString?
  {
    if k in cfg then v == ParsedOrZero(parse, cfg[k].str) else v == d
  }

  /** What an optional integer field must hold after reading. */
  predicate IntFieldRead(cfg: Object, k: string, d: int, v: int)
    requires k in cfg ==> cfg[k].VInt?
  {
    if k in cfg then v == cfg[k].num else v == d
  }

  function GetDuration(cfg: Object, k: string, d: Duration, parse: DurationParser): (r: Duration)
    requires k in cfg ==> cfg[k].VString?
    ensures DurationFieldRead(cfg, k, d, parse, r)
  {
    var (val, def) := GetWithDefault(cfg, k, VDuration(d));
    if def then val.dur else ParsedOrZero(parse, val.str)
  }

  function GetInt(cfg: Object, k: string, d: int): (r: int)
    requires k in cfg ==> cfg[k].VInt?
    ensures IntFieldRead(cfg, k, d, r)
  {
    var (val, _) := GetWithDefault(cfg, k, VInt(d));
    val.num
  }

  /** Whether a `redis` block passes validation: a mode of `redis` or
      `rediscluster`, and an address. */
  predicate BlockAccepted(block: Object)
  {
    "mode" in block && IsModeValue(block["mode"]) && "address" in block
  }

  /** The settings an accepted block yields: mode and address as given, every
      optional field as given or defaulted. */
  predicate FieldsRead(block: Object, parse: DurationParser, rc: RedisConfig)
    requires BlockAccepted(block) && BlockWellTyped(block)
  {
    && rc.mode == block["mode"].str
    && rc.address == block["address"].str
    && DurationFieldRead(block, "dialTimeout", RedisDefaultDialTimeout, parse, rc.dialTimeout)
    && DurationFieldRead(block, "readTimeout", RedisDefaultReadTimeout, parse, rc.readTimeout)
    && DurationFieldRead(block, "writeTimeout", RedisDefaultWriteTimeout, parse, rc.writeTimeout)
    && IntFieldRead(block, "maxRetries", RedisDefaultMaxRetries, rc.maxRetries)
    && DurationFieldRead(block, "idleTimeout", RedisDefaultIdleTimeout, parse, rc.idleTimeout)
    && DurationFieldRead(block, "idleCheckFrequency", RedisDefaultIdleCheckFrequency, parse, rc.idleCheckFrequency)
    && IntFieldRead(block, "poolSize", RedisDefaultPoolSize, rc.poolSize)
    && DurationFieldRead(block, "poolTimeout", RedisDefaultPoolTimeout, parse, rc.poolTimeout)
    && DurationFieldRead(block, "ttl", RedisDefaultTtl, parse, rc.ttl)
  }

  /** Validation and defaulting of a map-valued `redis` block. The mode is
      checked before the address. */
  function ReadRedisBlock(block: Object, parse: DurationParser): (r: Result<RedisConfig, Error>)
    requires BlockWellTyped(block)
    ensures "mode" !in block ==> r == Failure(ErrMissingRequired("mode"))
    ensures "mode" in block && !IsModeValue(block["mode"]) ==> r == Failure(ErrInvalidValue("mode"))
    ensures "mode" in block && IsModeValue(block["mode"]) && "address" !in block ==>
              r == Failure(ErrMissingRequired("address"))
    ensures r.Success? <==> BlockAccepted(block)
    ensures r.Success? ==> FieldsRead(block, parse, r.value)
  {
    if "mode" !in block then Failure(ErrMissingRequired("mode"))
    else if !IsModeValue(block["mode"]) then Failure(ErrInvalidValue("mode"))
    else
      match GetRequired(block, "address")
      case Failure(e) => Failure(e)
      case Success(addr) =>
        Success(RedisConfig(
          mode := block["mode"].str,
          address := addr.str,
          dialTimeout := GetDuration(block, "dialTimeout", RedisDefaultDialTimeout, parse),
          readTimeout := GetDuration(block, "readTimeout", RedisDefaultReadTimeout, parse),
          writeTimeout := GetDuration(block, "writeTimeout", RedisDefaultWriteTimeout, parse),
          maxRetries := GetInt(block, "maxRetries", RedisDefaultMaxRetries),
          idleTimeout := GetDuration(block, "idleTimeout", RedisDefaultIdleTimeout, parse),
          idleCheckFrequency := GetDuration(block, "idleCheckFrequency", RedisDefaultIdleCheckFrequency, parse),
          poolSize := GetInt(block, "poolSize", RedisDefaultPoolSize),
          poolTimeout := GetDuration(block, "poolTimeout", RedisDefaultPoolTimeout, parse),
          ttl := GetDuration(block, "ttl", RedisDefaultTtl, parse)))
  }

  /** The backend type a namespace object names: `memory` when absent,
      otherwise the given string, unchecked. */
  function TypeOf(ns: Object): string
    requires "type" in ns ==> ns["type"].VString?
  {
    if "type" in ns then ns["type"].str else BackendMemory
  }

  predicate HasRedisBlock(ns: Object)
  {
    BackendRedis in ns && ns[BackendRedis].VMap?
  }

  /** The configuration a namespace object yields. A map-valued `redis` block
      is validated whatever the type; without one, type `redis` is an error
      and every other type gets all-zero Redis settings. */
  function ReadNamespace(ns: Object, parse: DurationParser): (r: Result<Config, Error>)
    requires NamespaceWellTyped(ns)
    ensures r.Success? ==> r.value.typ == TypeOf(ns)
    ensures HasRedisBlock(ns) ==>
              && (r.Success? <==> BlockAccepted(ns[BackendRedis].entries))
              && (r.Success? ==> FieldsRead(ns[BackendRedis].entries, parse, r.value.redis))
              && (r.Failure? ==> r.error == ReadRedisBlock(ns[BackendRedis].entries, parse).error)
    ensures !HasRedisBlock(ns) && TypeOf(ns) == BackendRedis ==> r == Failure(ErrMissingRequired("redis"))
    ensures !HasRedisBlock(ns) && TypeOf(ns) != BackendRedis ==> r == Success(Config(TypeOf(ns), ZeroRedisConfig))
  {
    var typ := TypeOf(ns);
    var redisreq := typ == BackendRedis;
    if HasRedisBlock(ns) then
      match ReadRedisBlock(ns[BackendRedis].entries, parse)
      case Failure(e) => Failure(e)
      case Success(rc) => Success(Config(typ, rc))
    else if redisreq then Failure(ErrMissingRequired("redis"))
    else Success(Config(typ, ZeroRedisConfig))
  }

  /** `ConfigGetter`: the cache configuration of a backend, read from its extra
      configuration. */
  function ConfigGetter(extra: Object, parse: DurationParser): (r: Result<Config, Error>)
    requires WellTyped(extra)
    ensures Namespace !in extra ==> r == Failure(WarnNoConfig)
    ensures Namespace in extra && !extra[Namespace].VMap? ==> r == Failure(ErrMappingConfig)
    ensures r.Success? ==> Namespace in extra && extra[Namespace].VMap?
    ensures r.Success? ==> Acceptable(r.value)
    ensures Namespace in extra && extra[Namespace].VMap? ==> r == ReadNamespace(extra[Namespace].entries, parse)
  {
    if Namespace !in extra then Failure(WarnNoConfig)
    else if !extra[Namespace].VMap? then Failure(ErrMappingConfig)
    else ReadNamespace(extra[Namespace].entries, parse)
  }

  /** The configurations the reader can produce: either a valid Redis mode,
      or no Redis settings at all under a type other than `redis`. */
  predicate Acceptable(c: Config)
  {
    || c.redis.mode == RedisModeRedis
    || c.redis.mode == RedisModeCluster
    || (c.typ != BackendRedis && c.redis == ZeroRedisConfig)
  }

  /** `m` states the duration `v` under `k` exactly when it differs from the
      default `d`. */
  predicate StatesDuration(m: Object, k: string, v: Duration, d: Duration, format: Duration -> string)
  {
    (k in m <==> v != d) && (k in m ==> m[k] == VString(format(v)))
  }

  /** `m` states the integer `v` under `k` exactly when it differs from the
      default `d`. */
  predicate StatesInt(m: Object, k: string, v: int, d: int)
  {
    (k in m <==> v != d) && (k in m ==> m[k] == VInt(v))
  }

  /** Whether `k` names an optional field that holds its default in `rc`. */
  predicate AtDefault(rc: RedisConfig, k: string)
  {
    || (k == "dialTimeout" && rc.dialTimeout == RedisDefaultDialTimeout)
    || (k == "readTimeout" && rc.readTimeout == RedisDefaultReadTimeout)
    || (k == "writeTimeout" && rc.writeTimeout == RedisDefaultWriteTimeout)
    || (k == "maxRetries" && rc.maxRetries == RedisDefaultMaxRetries)
    || (k == "idleTimeout" && rc.idleTimeout == RedisDefaultIdleTimeout)
    || (k == "idleCheckFrequency" && rc.idleCheckFrequency == RedisDefaultIdleCheckFrequency)
    || (k == "poolSize" && rc.poolSize == RedisDefaultPoolSize)
    || (k == "poolTimeout" && rc.poolTimeout == RedisDefaultPoolTimeout)
    || (k == "ttl" && rc.ttl == RedisDefaultTtl)
  }

  /** The shortest `redis` block stating `rc`: mode and address, and every
      optional field whose value differs from its default, durations written
      by `format`. */
  function RenderBlock(rc: RedisConfig, format: Duration -> string): Object
  {
    var full := map[
      "mode" := VString(rc.mode),
      "address" := VString(rc.address),
      "dialTimeout" := VString(format(rc.dialTimeout)),
      "readTimeout" := VString(format(rc.readTimeout)),
      "writeTimeout" := VString(format(rc.writeTimeout)),
      "maxRetries" := VInt(rc.maxRetries),
      "idleTimeout" := VString(format(rc.idleTimeout)),
      "idleCheckFrequency" := VString(format(rc.idleCheckFrequency)),
      "poolSize" := VInt(rc.poolSize),
      "poolTimeout" := VString(format(rc.poolTimeout)),
      "ttl" := VString(format(rc.ttl))];
    map k | k in full && !AtDefault(rc, k) :: full[k]
  }

  /** A backend extra configuration that states `c` explicitly; the `redis`
      block is written only when `c` has a Redis mode. */
  function Render(c: Config, format: Duration -> string): Object
  {
    var typed := map["type" := VString(c.typ)];
    var ns :=
      if c.redis.mode == RedisModeRedis || c.redis.mode == RedisModeCluster
      then typed[BackendRedis := VMap(RenderBlock(c.redis, format))]
      else typed;
    map[Namespace := VMap(ns)]
  }

  /** A block stating `rc`: mode and address as given, and each optional
      field written exactly when it differs from its default. */
  predicate StatesConfig(b: Object, rc: RedisConfig, format: Duration -> string)
  {
    && "mode" in b && b["mode"] == VString(rc.mode)
    && "address" in b && b["address"] == VString(rc.address)
    && StatesDuration(b, "dialTimeout", rc.dialTimeout, RedisDefaultDialTimeout, format)
    && StatesDuration(b, "readTimeout", rc.readTimeout, RedisDefaultReadTimeout, format)
    && StatesDuration(b, "writeTimeout", rc.writeTimeout, RedisDefaultWriteTimeout, format)
    && StatesInt(b, "maxRetries", rc.maxRetries, RedisDefaultMaxRetries)
    && StatesDuration(b, "idleTimeout", rc.idleTimeout, RedisDefaultIdleTimeout, format)
    && StatesDuration(b, "idleCheckFrequency", rc.idleCheckFrequency, RedisDefaultIdleCheckFrequency, format)
    && StatesInt(b, "poolSize", rc.poolSize, RedisDefaultPoolSize)
    && StatesDuration(b, "poolTimeout", rc.poolTimeout, RedisDefaultPoolTimeout, format)
    && StatesDuration(b, "ttl", rc.ttl, RedisDefaultTtl, format)
  }

  /** Any block that states a valid-mode configuration, leaving out whichever
      optional fields hold their defaults, passes validation and is read back
      as that configuration: a stated field is read as written, a left-out
      one is restored by its default. */
  lemma StatedBlockReadBack(b: Object, rc: RedisConfig, parse: DurationParser, format: Duration -> string)
    requires rc.mode == RedisModeRedis || rc.mode == RedisModeCluster
    requires forall d :: parse(format(d)) == Some(d)
    requires StatesConfig(b, rc, format)
    ensures BlockWellTyped(b)
    ensures ReadRedisBlock(b, parse) == Success(rc)
  {
  }

  /** The shortest rendering of a valid-mode configuration passes validation
      and is read back as that configuration. */
  lemma BlockRoundTrip(rc: RedisConfig, parse: DurationParser, format: Duration -> string)
    requires rc.mode == RedisModeRedis || rc.mode == RedisModeCluster
    requires forall d :: parse(format(d)) == Some(d)
    ensures BlockWellTyped(RenderBlock(rc, format))
    ensures ReadRedisBlock(RenderBlock(rc, format), parse) == Success(rc)
  {
    RenderedTimeouts(rc, format);
    RenderedCounts(rc, format);
    RenderedPoolTimes(rc, format);
    StatedBlockReadBack(RenderBlock(rc, format), rc, parse, format);
  }

  /** The shortest block states the mode, the address and the connection
      timeouts. */
  lemma RenderedTimeouts(rc: RedisConfig, format: Duration -> string)
    ensures var b := RenderBlock(rc, format);
      && b["mode"] == VString(rc.mode) && b["address"] == VString(rc.address)
      && StatesDuration(b, "dialTimeout", rc.dialTimeout, RedisDefaultDialTimeout, format)
      && StatesDuration(b, "readTimeout", rc.readTimeout, RedisDefaultReadTimeout, format)
      && StatesDuration(b, "writeTimeout", rc.writeTimeout, RedisDefaultWriteTimeout, format)
  {
  }

  /** The shortest block states the retry count and the pool sizes. */
  lemma RenderedCounts(rc: RedisConfig, format: Duration -> string)
    ensures var b := RenderBlock(rc, format);
      && StatesInt(b, "maxRetries", rc.maxRetries, RedisDefaultMaxRetries)
      && StatesInt(b, "poolSize", rc.poolSize, RedisDefaultPoolSize)
  {
  }

  /** The shortest block states the idle and pool timeouts and the ttl. */
  lemma RenderedPoolTimes(rc: RedisConfig, format: Duration -> string)
    ensures var b := RenderBlock(rc, format);
      && StatesDuration(b, "idleTimeout", rc.idleTimeout, RedisDefaultIdleTimeout, format)
      && StatesDuration(b, "idleCheckFrequency", rc.idleCheckFrequency, RedisDefaultIdleCheckFrequency, format)
      && StatesDuration(b, "poolTimeout", rc.poolTimeout, RedisDefaultPoolTimeout, format)
      && StatesDuration(b, "ttl", rc.ttl, RedisDefaultTtl, format)
  {
  }

  /** Every configuration the reader can produce is read back exactly from
      its shortest rendering, given a duration format the parser inverts. */
  lemma RenderRoundTrip(c: Config, parse: DurationParser, format: Duration -> string)
    requires Acceptable(c)
    requires forall d :: parse(format(d)) == Some(d)
    ensures WellTyped(Render(c, format))
    ensures ConfigGetter(Render(c, format), parse) == Success(c)
  {
    var extra := Render(c, format);
    var ns := extra[Namespace].entries;
    assert ns["type"] == VString(c.typ);
    assert TypeOf(ns) == c.typ;
    if c.redis.mode == RedisModeRedis || c.redis.mode == RedisModeCluster {
      BlockRoundTrip(c.redis, parse, format);
      assert ns[BackendRedis] == VMap(RenderBlock(c.redis, format));
    } else {
      assert ns.Keys == {"type"};
      assert !HasRedisBlock(ns);
    }
  }
}
