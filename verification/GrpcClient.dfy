/**
 * Getting a connection to a service, and the retrying interceptor that moves a failing call to the
 * namespace the cluster reports. Cluster listings, dial outcomes, RPC outcomes and the lookups that
 * other callers make meanwhile are inputs.
 */
module GrpcClient {
  import opened Wrappers
  import opened Targets
  import opened NamespaceCache
  import opened ConnStorage
  import opened GrpcCallConfig

  const RETRIES := 3

  datatype Attempt = Succeeds | Unavailable | OtherError

  datatype Query = Query(service: string, origin: string, listing: Listing)

  /** What happens around each attempt of one call. */
  datatype Env = Env(
    invoke: (nat, string) -> Attempt,
    others: nat -> seq<Query>,
    list: nat -> Listing,
    dialOk: (nat, string) -> bool)

  datatype ConnResult = Got(conn: Conn) | NoNamespace | DialFailed | Faulted

  /** How a retried call ends; `filed` tells whether it stored a new connection. */
  datatype CallResult = Returned(filed: bool) | BadTarget | LookupFailed | RedialFailed | MaxRetries | CallPanicked

  datatype World = World(cache: Cache, namespaces: Bindings, conns: map<string, Conn>)

  function ServeAll(cache: Cache, queries: seq<Query>): Cache {
    if queries == [] then cache
    else
      var q := queries[|queries| - 1];
      Lookup(ServeAll(cache, queries[..|queries| - 1]), q.service, q.origin, q.listing).0
  }

  // --- What the operations do to the world ---

  function DialFrom(w: World, service: string, listing: Listing, dialOk: bool): (World, ConnResult) {
    if service in w.namespaces && w.namespaces[service] != "" then
      (w, if dialOk then Got(Conn(Target(service, w.namespaces[service]))) else DialFailed)
    else
      var (cache', answer) := Lookup(w.cache, service, "", listing);
      match answer
      case Failed(_) => (w.(cache := cache'), NoNamespace)
      case Panicked => (w.(cache := cache'), Faulted)
      case Found(_, namespace) =>
        (w.(cache := cache', namespaces := w.namespaces[service := namespace]),
         if dialOk then Got(Conn(Target(service, namespace))) else DialFailed)
  }

  function StoreIfAbsent(w: World, service: string, conn: Conn): World {
    if service in w.conns then w else w.(conns := w.conns[service := conn])
  }

  function GetConnFrom(w: World, service: string, listing: Listing, dialOk: bool): (World, ConnResult) {
    if service in w.conns then (w, Got(w.conns[service]))
    else
      var (w', result) := DialFrom(w, service, listing, dialOk);
      (if result.Got? then StoreIfAbsent(w', service, result.conn) else w', result)
  }

  function ChangeFrom(w: World, delivered: Bindings): World {
    w.(namespaces := w.namespaces + delivered, conns := w.conns - ChangedKeys(w.namespaces, delivered))
  }

  /** The rest of a call that is about to make attempt `i` on a connection to `target`. */
  function RetryFrom(w: World, target: string, changed: bool, i: nat, retries: nat, env: Env): (World, CallResult)
    decreases retries - i
  {
    if i >= retries then (w, MaxRetries)
    else match env.invoke(i, target)
      case Succeeds =>
        if changed && ParseTarget(target).Parsed?
        then (w.(conns := w.conns[ParseTarget(target).service := Conn(target)]), Returned(true))
        else (w, Returned(false))
      case OtherError => RetryFrom(w, target, changed, i + 1, retries, env)
      case Unavailable =>
        match ParseTarget(target)
        case Malformed => (w, BadTarget)
        case Parsed(service, namespace) =>
          var (cache', answer) := Lookup(ServeAll(w.cache, env.others(i)), service, namespace, env.list(i));
          match answer
          case Failed(_) => (w.(cache := cache'), LookupFailed)
          case Panicked => (w.(cache := cache'), CallPanicked)
          case Found(_, namespace') =>
            var w' := w.(cache := cache', namespaces := w.namespaces[service := namespace']);
            var target' := Target(service, namespace');
            if env.dialOk(i, target') then RetryFrom(w', target', true, i + 1, retries, env)
            else (w', RedialFailed)
  }

  function Retry(w: World, target: string, env: Env): (World, CallResult) {
    RetryFrom(w, target, false, 0, RETRIES, env)
  }

  // --- The operations ---

  class Client {
    const cache: ServiceCache
    const config: Config
    const storage: Storage

    constructor (cache: ServiceCache, config: Config, storage: Storage)
      ensures this.cache == cache && this.config == config && this.storage == storage
    {
      this.cache, this.config, this.storage := cache, config, storage;
    }

    ghost function TheWorld(): World
      reads cache, config, storage
    {
      World(cache.service2Namespaces, config.service2Namespace, storage.conns)
    }

    method DialWrapper(service: string, listing: Listing, dialOk: bool) returns (result: ConnResult)
      modifies cache, config
      ensures (TheWorld(), result) == DialFrom(old(TheWorld()), service, listing, dialOk)
    {
      var namespace := config.GetServiceNamespace(service);
      if namespace == "" {
        var answer := cache.GetNewServiceEntity(service, namespace, listing);
        match answer {
          case Failed(_) => return NoNamespace;
          case Panicked => return Faulted;
          case Found(_, newNamespace) => namespace := newNamespace;
        }
        var _ := config.SetServiceNamespace(service, namespace);
      }
      if !dialOk {
        return DialFailed;
      }
      return Got(Conn(Target(service, namespace)));
    }

    method GetConn(service: string, listing: Listing, dialOk: bool) returns (result: ConnResult)
      modifies cache, config, storage
      ensures (TheWorld(), result) == GetConnFrom(old(TheWorld()), service, listing, dialOk)
    {
      var myConn := storage.Get(service);
      if myConn.Some? {
        return Got(myConn.value);
      }
      result := DialWrapper(service, listing, dialOk);
      if !result.Got? {
        return;
      }
      myConn := storage.Get(service);
      if myConn.None? {
        storage.Set(service, result.conn);
      }
    }

    method OnChange(delivered: Bindings)
      modifies config, storage
      ensures TheWorld() == ChangeFrom(old(TheWorld()), delivered)
    {
      config.OnChange(Some(delivered), storage);
    }

    /** Other callers' lookups, served one at a time under the cache's lock. */
    method ServeOthers(queries: seq<Query>)
      modifies cache
      ensures cache.service2Namespaces == ServeAll(old(cache.service2Namespaces), queries)
    {
      for k := 0 to |queries|
        invariant cache.service2Namespaces == ServeAll(old(cache.service2Namespaces), queries[..k])
      {
        assert queries[..k + 1][..k] == queries[..k];
        var _ := cache.GetNewServiceEntity(queries[k].service, queries[k].origin, queries[k].listing);
      }
      assert queries[..|queries|] == queries;
    }

    /** The retrying interceptor, called with a connection to `target`. */
    method RetryUnary(target: string, env: Env) returns (result: CallResult)
      modifies cache, config, storage
      ensures (TheWorld(), result) == Retry(old(TheWorld()), target, env)
    {
      var cc, isConnChange := target, false;
      for i := 0 to RETRIES
        invariant Retry(old(TheWorld()), target, env) == RetryFrom(TheWorld(), cc, isConnChange, i, RETRIES, env)
      {
        var attempt := env.invoke(i, cc);
        if attempt == Succeeds {
          if isConnChange {
            var parsed := ParseTarget(cc);
            if parsed.Parsed? {
              storage.Set(parsed.service, Conn(cc));
              return Returned(true);
            }
          }
          return Returned(false);
        }
        if attempt == Unavailable {
          var parsed := ParseTarget(cc);
          if parsed.Malformed? {
            return BadTarget;
          }
          ServeOthers(env.others(i));
          var answer := cache.GetNewServiceEntity(parsed.service, parsed.namespace, env.list(i));
          match answer {
            case Failed(_) => return LookupFailed;
            case Panicked => return CallPanicked;
            case Found(_, newNamespace) =>
              var _ := config.SetServiceNamespace(parsed.service, newNamespace);
              var target' := Target(parsed.service, newNamespace);
              if !env.dialOk(i, target') {
                return RedialFailed;
              }
              isConnChange, cc := true, target';
          }
        }
      }
      return MaxRetries;
    }
  }
}
