/** Optional values. */
module Options {
  datatype Option<T> = None | Some(value: T)
}

/** The values the routing pipeline works on. */
module RoutingTypes {
  import opened Options

  datatype BackendRole = PRIMARY | REPLICA

  datatype BackendState = HEALTHY | DEGRADED | FAILED | RECOVERING | DRAINING

  datatype Policy = ROUND_ROBIN | WEIGHTED | LEAST_CONNECTIONS | LATENCY | RANDOM | FAILOVER | CONSISTENT_HASHING

  datatype RoutingError =
    | NO_SCHEMA_CONFIG | NO_BACKEND_AVAILABLE | BACKEND_DISCONNECTED
    | FIREWALL_BLOCKED | RATE_LIMITED | POOL_QUEUE_FULL

  datatype Result<T> = Ok(value: T) | Err(error: RoutingError)

  /** One consistent reading of a backend entry. */
  datatype Backend = Backend(id: string, group: string, role: BackendRole, state: BackendState, lagMs: nat, weight: int)

  /** A live signal a policy may consult; absent when no callback is supplied. */
  datatype RoutingContext = RoutingContext(activeConnections: Option<string -> nat>, latencyUs: Option<string -> nat>)
}
