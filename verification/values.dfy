/** Values as the gateway's configuration decoder hands them over: the
    `interface{}` payloads of a `map[string]interface{}`, plus Go's
    `time.Duration`, counted in nanoseconds. */
module Values {

  /** A `time.Duration`: a signed count of nanoseconds. */
  type Duration = int

  const Nanosecond: Duration := 1
  const Microsecond: Duration := 1000 * Nanosecond
  const Millisecond: Duration := 1000 * Microsecond
  const Second: Duration := 1000 * Millisecond
  const Minute: Duration := 60 * Second
  const Hour: Duration := 60 * Minute

  /** One dynamically typed configuration value. `VDuration` only arises as a
      default passed into the lookup helpers; decoded configuration carries
      durations as strings. `VOther` stands for every remaining dynamic type
      (booleans, floats, lists, nil). */
  datatype Value =
    | VString(str: string)
    | VInt(num: int)
    | VDuration(dur: Duration)
    | VMap(entries: map<string, Value>)
    | VOther

  /** A decoded JSON object: `map[string]interface{}`. */
  type Object = map<string, Value>
}
