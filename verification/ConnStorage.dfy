/** The process-wide map from a service to the client connection it is called through. */
module ConnStorage {
  import opened Wrappers

  /** A client connection, known here by the target it was dialed with. */
  datatype Conn = Conn(target: string)

  function KeySet(services: seq<string>): set<string> {
    set s | s in services
  }

  lemma {:induction false} KeySetAppend(services: seq<string>, service: string)
    ensures KeySet(services + [service]) == KeySet(services) + {service}
  {
  }

  class Storage {
    var conns: map<string, Conn>

    constructor ()
      ensures conns == map[]
    {
      conns := map[];
    }

    method Set(service: string, conn: Conn)
      modifies this
      ensures conns == old(conns)[service := conn]
    {
      conns := conns[service := conn];
    }

    method Get(service: string) returns (conn: Option<Conn>)
      ensures conn == if service in conns then Some(conns[service]) else None
    {
      if service in conns {
        return Some(conns[service]);
      }
      return None;
    }

    method DeleteByServiceKeys(services: seq<string>)
      modifies this
      ensures conns == old(conns) - KeySet(services)
      ensures forall s :: s in conns <==> s in old(conns) && s !in services
    {
      for i := 0 to |services|
        invariant conns == old(conns) - KeySet(services[..i])
      {
        conns := conns - {services[i]};
        assert services[..i + 1] == services[..i] + [services[i]];
        KeySetAppend(services[..i], services[i]);
      }
      assert services[..|services|] == services;
    }
  }
}
