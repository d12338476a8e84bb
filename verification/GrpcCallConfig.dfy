/**
 * The namespace each called service is bound to, kept in step with a shared configuration value:
 * a local change republishes the whole map, a delivered value is merged and invalidates connections.
 */
module GrpcCallConfig {
  import opened Wrappers
  import opened ConnStorage

  type Bindings = map<string, string>

  /** The services to which a delivered map gives a new or a different namespace. */
  function ChangedKeys(known: Bindings, delivered: Bindings): set<string> {
    set s | s in delivered && !(s in known && known[s] == delivered[s])
  }

  function Restrict(m: Bindings, keys: set<string>): Bindings {
    map s | s in m && s in keys :: m[s]
  }

  /** Storing only what changed is the same as overwriting with everything that was delivered. */
  lemma {:induction false} MergeOfChanges(known: Bindings, delivered: Bindings)
    ensures known + Restrict(delivered, ChangedKeys(known, delivered)) == known + delivered
  {
  }

  class Config {
    var service2Namespace: Bindings

    constructor ()
      ensures service2Namespace == map[]
    {
      service2Namespace := map[];
    }

    method GetServiceNamespace(service: string) returns (namespace: string)
      ensures namespace == if service in service2Namespace then service2Namespace[service] else ""
    {
      if service in service2Namespace {
        return service2Namespace[service];
      }
      return "";
    }

    /** Binds locally and hands the whole map to the configuration service. */
    method SetServiceNamespace(service: string, namespace: string) returns (published: Bindings)
      modifies this
      ensures service2Namespace == old(service2Namespace)[service := namespace]
      ensures published == service2Namespace
    {
      service2Namespace := service2Namespace[service := namespace];
      published := service2Namespace;
    }

    method StoreAll(bindings: Bindings)
      modifies this
      ensures service2Namespace == old(service2Namespace) + bindings
    {
      var todo := bindings.Keys;
      while todo != {}
        invariant todo <= bindings.Keys
        invariant service2Namespace == old(service2Namespace) + Restrict(bindings, bindings.Keys - todo)
        decreases todo
      {
        var s :| s in todo;
        service2Namespace := service2Namespace[s := bindings[s]];
        todo := todo - {s};
      }
      assert Restrict(bindings, bindings.Keys) == bindings;
    }

    /**
     * The watch handler. `None` is the empty value; `Some` is what the JSON text decoded to. In
     * whatever order the two maps are walked, the result is the plain merge, and exactly the
     * connections of the changed bindings are dropped.
     */
    method OnChange(value: Option<Bindings>, storage: Storage)
      modifies this, storage
      ensures service2Namespace == match value case None => old(service2Namespace)
                                               case Some(delivered) => old(service2Namespace) + delivered
      ensures storage.conns == match value
                               case None => old(storage.conns)
                               case Some(delivered) =>
                                  old(storage.conns) - ChangedKeys(old(service2Namespace), delivered)
    {
      if value.Some? {
        var tmpMap, oldMap := value.value, service2Namespace;
        var diffMap: Bindings, diffKeys: seq<string> := map[], [];
        var todo := tmpMap.Keys;
        while todo != {}
          invariant todo <= tmpMap.Keys
          invariant service2Namespace == oldMap && storage.conns == old(storage.conns)
          invariant diffMap == Restrict(tmpMap, ChangedKeys(oldMap, tmpMap) - todo)
          invariant KeySet(diffKeys) == ChangedKeys(oldMap, tmpMap) - todo
          decreases todo
        {
          var s :| s in todo;
          todo := todo - {s};
          if s in oldMap && tmpMap[s] == oldMap[s] {
            assert s !in ChangedKeys(oldMap, tmpMap);
            continue;
          }
          diffMap := diffMap[s := tmpMap[s]];
          KeySetAppend(diffKeys, s);
          diffKeys := diffKeys + [s];
        }
        assert KeySet(diffKeys) == ChangedKeys(oldMap, tmpMap);
        assert diffMap == Restrict(tmpMap, ChangedKeys(oldMap, tmpMap));
        storage.DeleteByServiceKeys(diffKeys);
        StoreAll(diffMap);
        MergeOfChanges(oldMap, tmpMap);
      }
    }
  }
}
