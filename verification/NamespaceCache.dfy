/**
 * Service discovery: which namespace a service lives in, answered from a per-service cache or from
 * a fresh listing of the cluster that is sorted, with a chosen namespace first, into that cache.
 */
module NamespaceCache {
  import opened Wrappers

  // --- The order of namespaces ---

  /** Go's order of strings. */
  predicate TextLess(a: string, b: string) {
    if b == "" then false
    else if a == "" then true
    else a[0] < b[0] || (a[0] == b[0] && TextLess(a[1..], b[1..]))
  }

  /** The namespace that the comparator puts in front of all others. */
  function Special(head: string): string {
    if head != "" then head else "default"
  }

  /** The comparator handed to `sort.Slice`. */
  predicate Less(a: string, b: string, head: string) {
    if a == Special(head) then true
    else if b == Special(head) then false
    else TextLess(a, b)
  }

  /** What `sort.Slice` promises of its result, whatever algorithm it uses. */
  ghost predicate SortedFor(s: seq<string>, head: string) {
    forall i, j :: 0 <= i < j < |s| ==> !Less(s[j], s[i], head)
  }

  function Insert(x: string, s: seq<string>, head: string): seq<string> {
    if s == [] || Less(x, s[0], head) then [x] + s
    else [s[0]] + Insert(x, s[1..], head)
  }

  function Sort(s: seq<string>, head: string): seq<string> {
    if s == [] then [] else Insert(s[0], Sort(s[1..], head), head)
  }

  lemma {:induction false} TextLessTotal(a: string, b: string)
    ensures !(TextLess(a, b) && TextLess(b, a))
    ensures TextLess(a, b) || TextLess(b, a) || a == b
    ensures !TextLess(a, a)
  {
    if a != "" {
      TextLessTotal(a[1..], if b != "" then b[1..] else "");
      assert a == [a[0]] + a[1..];
      assert b != "" ==> b == [b[0]] + b[1..];
    }
  }

  /** The first position at which two texts differ, or the length of the shorter one. */
  function Common(a: string, b: string): (n: nat)
    ensures n <= |a| && n <= |b| && a[..n] == b[..n]
    ensures n < |a| && n < |b| ==> a[n] != b[n]
  {
    if a != "" && b != "" && a[0] == b[0] then 1 + Common(a[1..], b[1..]) else 0
  }

  /** Go's order, said by position: the smaller character decides, and a proper prefix comes first. */
  lemma {:induction false} TextLessExactly(a: string, b: string)
    ensures var n := Common(a, b);
            TextLess(a, b) <==> n < |b| && (n == |a| || a[n] < b[n])
  {
    if a != "" && b != "" && a[0] == b[0] {
      TextLessExactly(a[1..], b[1..]);
    }
  }

  lemma {:induction false} TextLessTransitive(a: string, b: string, c: string)
    requires TextLess(a, b) && TextLess(b, c)
    ensures TextLess(a, c)
  {
    if a != "" && a[0] == b[0] == c[0] {
      TextLessTransitive(a[1..], b[1..], c[1..]);
    }
  }

  /** On two different namespaces exactly one direction of the comparator holds; on equal ones it can claim both. */
  lemma {:induction false} LessTotal(a: string, b: string, head: string)
    ensures a != b ==> (Less(a, b, head) <==> !Less(b, a, head))
    ensures Less(a, a, head) <==> a == Special(head)
  {
    TextLessTotal(a, b);
    TextLessTotal(a, a);
  }

  lemma {:induction false} LessTransitive(a: string, b: string, c: string, head: string)
    requires b != c && Less(a, b, head) && Less(b, c, head)
    ensures Less(a, c, head)
  {
    if a != Special(head) && c != Special(head) {
      TextLessTransitive(a, b, c);
    }
  }

  /** A namespace that comes before the first of a sorted list comes before all of it. */
  lemma {:induction false} BeforeAll(x: string, s: seq<string>, head: string)
    requires x !in s && Distinct(s) && SortedFor(s, head) && s != [] && Less(x, s[0], head)
    ensures forall j :: 0 <= j < |s| ==> !Less(s[j], x, head)
  {
    forall j | 0 <= j < |s|
      ensures !Less(s[j], x, head)
    {
      LessTotal(x, s[j], head);
      if j > 0 {
        LessTotal(s[0], s[j], head);
        LessTransitive(x, s[0], s[j], head);
      }
    }
  }

  lemma {:induction false} InsertKeepsElements(x: string, s: seq<string>, head: string)
    ensures multiset(Insert(x, s, head)) == multiset(s) + multiset{x}
  {
    if s != [] && !Less(x, s[0], head) {
      assert s == [s[0]] + s[1..];
      InsertKeepsElements(x, s[1..], head);
    }
  }

  lemma {:induction false} InsertKeepsOrder(x: string, s: seq<string>, head: string)
    requires x !in s && Distinct(s) && SortedFor(s, head)
    ensures SortedFor(Insert(x, s, head), head)
  {
    if s != [] && !Less(x, s[0], head) {
      var rest, inserted := s[1..], Insert(x, s[1..], head);
      InsertKeepsOrder(x, rest, head);
      InsertKeepsElements(x, rest, head);
      forall j | 0 <= j < |inserted|
        ensures !Less(inserted[j], s[0], head)
      {
        assert inserted[j] in multiset(inserted);
        assert inserted[j] == x || inserted[j] in rest;
      }
    } else if s != [] {
      BeforeAll(x, s, head);
    }
  }

  lemma {:induction false} SortSorts(s: seq<string>, head: string)
    requires Distinct(s)
    ensures multiset(Sort(s, head)) == multiset(s)
    ensures Distinct(Sort(s, head)) && SortedFor(Sort(s, head), head)
  {
    if s != [] {
      SortSorts(s[1..], head);
      assert s == [s[0]] + s[1..];
      var rest := Sort(s[1..], head);
      assert s[0] !in multiset(s[1..]);
      assert s[0] !in rest;
      InsertKeepsOrder(s[0], rest, head);
      InsertKeepsElements(s[0], rest, head);
      SameElementsDistinct(s, Sort(s, head));
    }
  }

  lemma {:induction false} SameElementsDistinct<T>(s: seq<T>, t: seq<T>)
    requires Distinct(s) && multiset(s) == multiset(t)
    ensures Distinct(t) && |s| == |t|
    ensures forall x :: x in s <==> x in t
  {
    assert |s| == |multiset(s)| == |multiset(t)| == |t|;
    forall x ensures x in s <==> x in t {
      assert x in s <==> x in multiset(s);
      assert x in t <==> x in multiset(t);
    }
    forall i, j | 0 <= i < j < |t|
      ensures t[i] != t[j]
    {
      if t[i] == t[j] {
        assert t == t[..i] + [t[i]] + t[i + 1..j] + [t[j]] + t[j + 1..];
        assert multiset(t)[t[i]] >= 2;
        DistinctCount(s, t[i]);
      }
    }
  }

  lemma {:induction false} DistinctCount<T>(s: seq<T>, x: T)
    requires Distinct(s)
    ensures multiset(s)[x] <= 1
  {
    if s != [] {
      assert s == [s[0]] + s[1..];
      DistinctCount(s[1..], x);
      assert s[0] !in s[1..];
      assert s[0] !in multiset(s[1..]);
    }
  }

  lemma {:induction false} SortedHeadsAgree(s: seq<string>, t: seq<string>, head: string)
    requires s != [] && t != [] && s[0] in t && t[0] in s
    requires SortedFor(s, head) && SortedFor(t, head)
    ensures s[0] == t[0]
  {
    LessTotal(s[0], t[0], head);
  }

  lemma {:induction false} TailKeepsOrder(s: seq<string>, head: string)
    requires s != [] && SortedFor(s, head)
    ensures SortedFor(s[1..], head) && s == [s[0]] + s[1..]
    ensures multiset(s[1..]) == multiset(s) - multiset{s[0]}
    ensures Distinct(s) ==> Distinct(s[1..])
  {
    assert s == [s[0]] + s[1..];
    forall i, j | 0 <= i < j < |s| - 1
      ensures !Less(s[1..][j], s[1..][i], head)
    {
      assert !Less(s[j + 1], s[i + 1], head);
    }
  }

  /** Any algorithm that keeps its promise gives one and the same list. */
  lemma {:induction false} SortUnique(s: seq<string>, t: seq<string>, head: string)
    requires multiset(s) == multiset(t) && Distinct(s)
    requires SortedFor(s, head) && SortedFor(t, head)
    ensures s == t
  {
    SameElementsDistinct(s, t);
    if s != [] {
      assert s[0] in s && t[0] in t;
      SortedHeadsAgree(s, t, head);
      TailKeepsOrder(s, head);
      TailKeepsOrder(t, head);
      SortUnique(s[1..], t[1..], head);
    }
  }

  /** Head first: the special namespace if listed, otherwise the least one, and the others ascending. */
  lemma {:induction false} SortedShape(s: seq<string>, head: string)
    requires Distinct(s) && SortedFor(s, head) && s != []
    ensures Special(head) in s ==> s[0] == Special(head)
    ensures Special(head) !in s ==> forall n :: n in s && n != s[0] ==> TextLess(s[0], n)
    ensures forall i, j :: 1 <= i < j < |s| ==> TextLess(s[i], s[j])
  {
    forall i, j | 0 <= i < j < |s|
      ensures Less(s[i], s[j], head)
    {
      LessTotal(s[i], s[j], head);
    }
  }

  // --- The lookup ---

  /** One service object of the cluster. */
  datatype Item = Item(name: string, namespace: string)

  /** How the cluster API answers a listing of all services. */
  datatype Listing = NoClient | ListFailed | NilList | Services(items: seq<Item>)

  /** How a lookup ends; `Panicked` is the index fault on a listing without the service. */
  datatype Answer =
    | Found(isChange: bool, namespace: string)
    | Failed(namespace: string)
    | Panicked

  type Cache = map<string, seq<string>>

  function NamespacesOf(items: seq<Item>, service: string): seq<string> {
    if items == [] then []
    else
      var rest := NamespacesOf(items[..|items| - 1], service);
      var last := items[|items| - 1];
      if last.name == service then rest + [last.namespace] else rest
  }

  predicate Cached(cache: Cache, service: string) {
    service in cache && cache[service] != []
  }

  function Lookup(cache: Cache, service: string, origin: string, listing: Listing): (Cache, Answer) {
    if Cached(cache, service) && origin !in cache[service] then
      (cache, Found(true, cache[service][0]))
    else match listing
      case NoClient => (cache, Failed(""))
      case ListFailed => (cache, Failed(origin))
      case NilList => (cache, Found(false, origin))
      case Services(items) =>
        var listed := NamespacesOf(items, service);
        var head := if origin in listed then origin else "";
        var sorted := Sort(listed, head);
        (cache[service := sorted],
         if sorted == [] then Panicked else Found(origin !in listed, sorted[0]))
  }

  class ServiceCache {
    var service2Namespaces: Cache

    constructor ()
      ensures service2Namespaces == map[]
    {
      service2Namespaces := map[];
    }

    method GetNewServiceEntity(service: string, origin: string, listing: Listing) returns (answer: Answer)
      modifies this
      ensures (service2Namespaces, answer) == Lookup(old(service2Namespaces), service, origin, listing)
    {
      if service in service2Namespaces && |service2Namespaces[service]| > 0 {
        var namespaces := service2Namespaces[service];
        if origin !in namespaces {
          return Found(true, namespaces[0]);
        }
      }
      match listing {
        case NoClient => return Failed("");
        case ListFailed => return Failed(origin);
        case NilList => return Found(false, origin);
        case Services(items) =>
          service2Namespaces := service2Namespaces[service := []];
          for i := 0 to |items|
            invariant service2Namespaces == old(service2Namespaces)[service := NamespacesOf(items[..i], service)]
          {
            assert items[..i + 1][..i] == items[..i];
            if items[i].name == service {
              service2Namespaces := service2Namespaces[service := service2Namespaces[service] + [items[i].namespace]];
            }
          }
          assert items[..|items|] == items;
          var namespaces := service2Namespaces[service];
          var head, isChange := "", true;
          if origin in namespaces {
            head, isChange := origin, false;
          }
          namespaces := Sort(namespaces, head);
          service2Namespaces := service2Namespaces[service := namespaces];
          assert service2Namespaces == old(service2Namespaces)[service := namespaces];
          if namespaces == [] {
            return Panicked;
          }
          return Found(isChange, namespaces[0]);
      }
    }
  }

  /**
   * When a lookup faults: exactly when it has to relist and the listing does not have the service.
   * Whatever it does, it leaves the entries of other services alone, and its own unless it relisted.
   */
  lemma {:induction false} LookupOutcome(cache: Cache, service: string, origin: string, listing: Listing)
    requires listing.Services? ==> Distinct(listing.items)
    ensures var (cache', answer) := Lookup(cache, service, origin, listing);
            && (answer.Panicked? <==>
                  && listing.Services? && (Cached(cache, service) ==> origin in cache[service])
                  && forall n :: Item(service, n) !in listing.items)
            && cache' - {service} == cache - {service}
            && (!listing.Services? ==> cache' == cache)
            && (answer.Failed? ==> listing.NoClient? || listing.ListFailed?)
            && (answer.Found? && !answer.isChange ==> answer.namespace == origin || origin == "")
  {
    if listing.Services? {
      var listed := NamespacesOf(listing.items, service);
      ListedDistinct(listing.items, service);
      var head := if origin in listed then origin else "";
      SortSorts(listed, head);
      SameElementsDistinct(listed, Sort(listed, head));
      assert listed == [] <==> forall n :: n !in listed by {
        if listed != [] {
          assert listed[0] in listed;
        }
      }
      assert cache[service := Sort(listed, head)] - {service} == cache - {service};
    }
  }

  /** The cached entry does not answer: there is none, or it has the origin in it. */
  predicate MustRelist(cache: Cache, service: string, origin: string) {
    service in cache && cache[service] != [] ==> origin in cache[service]
  }

  /**
   * When a lookup fails: exactly when it has to relist and there is no client, or the listing failed. A
   * failed listing still names the origin, a missing client names nothing, and the cache stays.
   */
  lemma {:induction false} LookupFailsExactly(cache: Cache, service: string, origin: string, listing: Listing)
    ensures var (cache', answer) := Lookup(cache, service, origin, listing);
            && (answer.Failed? <==> MustRelist(cache, service, origin) && (listing.NoClient? || listing.ListFailed?))
            && (answer.Failed? ==> cache' == cache && answer.namespace == if listing.NoClient? then "" else origin)
  {
  }

  /**
   * What a lookup that finds something finds: the head of an entry without the origin, whatever the
   * listing; the origin for a nil listing; a listed namespace otherwise. It reports a change exactly when
   * the namespace is another than the origin.
   */
  lemma {:induction false} LookupFinds(cache: Cache, service: string, origin: string, listing: Listing)
    requires listing.Services? ==> Distinct(listing.items)
    ensures var (cache', answer) := Lookup(cache, service, origin, listing);
            && (!MustRelist(cache, service, origin) ==> cache' == cache && answer == Found(true, cache[service][0]))
            && (MustRelist(cache, service, origin) && listing.NilList? ==> answer == Found(false, origin))
            && (MustRelist(cache, service, origin) && listing.Services? && answer.Found? ==>
                  Item(service, answer.namespace) in listing.items)
            && (answer.Found? && origin != "" ==> (answer.isChange <==> answer.namespace != origin))
  {
    if MustRelist(cache, service, origin) && listing.Services? {
      var listed := NamespacesOf(listing.items, service);
      ListedDistinct(listing.items, service);
      if listed != [] {
        RelistedShape(cache, service, origin, listing.items);
        var sorted := Lookup(cache, service, origin, listing).0[service];
        assert |multiset(sorted)| == |multiset(listed)|;
        assert sorted[0] in multiset(sorted);
        assert sorted[0] in listed;
      }
    }
  }

  // --- Listing order does not matter ---

  /** A service has one object in each namespace, and the filter loop keeps each of them. */
  lemma {:induction false} ListedOnce(items: seq<Item>, service: string, namespace: string)
    ensures multiset(NamespacesOf(items, service))[namespace] == multiset(items)[Item(service, namespace)]
  {
    if items != [] {
      var n := |items| - 1;
      ListedOnce(items[..n], service, namespace);
      assert items == items[..n] + [items[n]];
    }
  }

  lemma {:induction false} ListedDistinct(items: seq<Item>, service: string)
    requires Distinct(items)
    ensures Distinct(NamespacesOf(items, service))
    ensures forall n :: n in NamespacesOf(items, service) <==> Item(service, n) in items
  {
    if items != [] {
      var n := |items| - 1;
      ListedDistinct(items[..n], service);
      assert items == items[..n] + [items[n]];
      assert items[n] !in items[..n];
    }
  }

  /**
   * Any order in which the API lists the same objects gives the same cache and the same answer: the
   * origin if it is listed, otherwise "default" if that is listed, otherwise the least namespace.
   */
  lemma {:induction false} ListingOrderIndependent(
    cache: Cache, service: string, origin: string, items: seq<Item>, shuffled: seq<Item>)
    requires Distinct(items) && multiset(items) == multiset(shuffled)
    ensures Lookup(cache, service, origin, Services(items)) == Lookup(cache, service, origin, Services(shuffled))
  {
    var a, b := NamespacesOf(items, service), NamespacesOf(shuffled, service);
    forall n ensures multiset(a)[n] == multiset(b)[n] {
      ListedOnce(items, service, n);
      ListedOnce(shuffled, service, n);
    }
    assert multiset(a) == multiset(b);
    ListedDistinct(items, service);
    SameElementsDistinct(a, b);
    var head := if origin in a then origin else "";
    SortSorts(a, head);
    SortSorts(b, head);
    SortUnique(Sort(a, head), Sort(b, head), head);
  }

  lemma {:induction false} RelistedShape(cache: Cache, service: string, origin: string, items: seq<Item>)
    requires Distinct(items) && (Cached(cache, service) ==> origin in cache[service])
    requires NamespacesOf(items, service) != []
    ensures var (cache', answer) := Lookup(cache, service, origin, Services(items));
            var listed := NamespacesOf(items, service);
            && multiset(cache'[service]) == multiset(listed)
            && answer == Found(origin !in listed, cache'[service][0])
            && (forall i, j :: 1 <= i < j < |listed| ==> TextLess(cache'[service][i], cache'[service][j]))
            && (origin in listed && origin != "" ==> answer.namespace == origin)
            && (origin !in listed && "default" in listed ==> answer.namespace == "default")
            && (origin !in listed && "default" !in listed ==>
                  forall n :: n in listed && n != answer.namespace ==> TextLess(answer.namespace, n))
  {
    var listed := NamespacesOf(items, service);
    var head := if origin in listed then origin else "";
    ListedDistinct(items, service);
    SortSorts(listed, head);
    SameElementsDistinct(listed, Sort(listed, head));
    SortedShape(Sort(listed, head), head);
  }

  // --- Convergence ---

  /** A step of a run: our caller feeds its last result back, or some other caller looks anything up. */
  datatype Step = Mine | Other(service: string, origin: string)

  datatype Lookups = Lookups(cache: Cache, origin: string, answers: seq<Answer>)

  /** A panicking or failing lookup returns no namespace, so our caller keeps the one it had. */
  function Next(s: Lookups, step: Step, service: string, items: seq<Item>): Lookups {
    match step
    case Other(service', origin') => s.(cache := Lookup(s.cache, service', origin', Services(items)).0)
    case Mine =>
      var (cache', answer) := Lookup(s.cache, service, s.origin, Services(items));
      Lookups(cache', if answer.Found? then answer.namespace else s.origin, s.answers + [answer])
  }

  function Run(cache: Cache, origin: string, trace: seq<Step>, service: string, items: seq<Item>): Lookups {
    if trace == [] then Lookups(cache, origin, [])
    else Next(Run(cache, origin, trace[..|trace| - 1], service, items), trace[|trace| - 1], service, items)
  }

  /** The cache holds just what is listed for the service. */
  ghost predicate Fresh(cache: Cache, service: string, items: seq<Item>) {
    service in cache && multiset(cache[service]) == multiset(NamespacesOf(items, service))
  }

  /** One relisting or one fresh entry away from a listed namespace. */
  ghost predicate Near(cache: Cache, service: string, origin: string, items: seq<Item>) {
    Fresh(cache, service, items) || (Cached(cache, service) && origin in cache[service])
  }

  /** Where our caller can stand after each of its calls. */
  ghost predicate Converging(s: Lookups, service: string, items: seq<Item>) {
    var listed := NamespacesOf(items, service);
    && (forall k :: 0 <= k < |s.answers| ==> s.answers[k].Found?)
    && (s.answers != [] ==> s.origin == s.answers[|s.answers| - 1].namespace)
    && (|s.answers| == 1 ==> Near(s.cache, service, s.origin, items))
    && (|s.answers| >= 2 ==> Fresh(s.cache, service, items) && s.answers[1].namespace in listed)
    && (forall k :: 2 <= k < |s.answers| ==> s.answers[k] == Found(false, s.answers[1].namespace))
  }

  lemma {:induction false} FreshNonEmpty(cache: Cache, service: string, items: seq<Item>)
    requires Fresh(cache, service, items)
    ensures forall n :: n in cache[service] <==> n in NamespacesOf(items, service)
    ensures |cache[service]| == |NamespacesOf(items, service)|
  {
    var listed := NamespacesOf(items, service);
    assert |multiset(cache[service])| == |multiset(listed)|;
    forall n ensures n in cache[service] <==> n in listed {
      assert n in cache[service] <==> n in multiset(cache[service]);
      assert n in listed <==> n in multiset(listed);
    }
  }

  /** One lookup of the service leaves its entry alone or makes it fresh. */
  lemma {:induction false} LookupRefreshes(cache: Cache, service: string, origin: string, items: seq<Item>)
    requires Distinct(items) && NamespacesOf(items, service) != []
    ensures var (cache', answer) := Lookup(cache, service, origin, Services(items));
            if Cached(cache, service) && origin !in cache[service]
            then cache' == cache && answer == Found(true, cache[service][0])
            else Fresh(cache', service, items) && answer.Found?
                 && answer.namespace in NamespacesOf(items, service)
                 && (origin in NamespacesOf(items, service) && origin != "" ==> answer == Found(false, origin))
  {
    if !(Cached(cache, service) && origin !in cache[service]) {
      RelistedShape(cache, service, origin, items);
      var cache' := Lookup(cache, service, origin, Services(items)).0;
      FreshNonEmpty(cache', service, items);
    }
  }

  /** A lookup by anybody keeps a fresh entry fresh and our caller near. */
  lemma {:induction false} OtherLookupKeeps(
    cache: Cache, service: string, mine: string, service': string, origin': string, items: seq<Item>)
    requires Distinct(items) && NamespacesOf(items, service) != []
    ensures var cache' := Lookup(cache, service', origin', Services(items)).0;
            && (Fresh(cache, service, items) ==> Fresh(cache', service, items))
            && (Near(cache, service, mine, items) ==> Near(cache', service, mine, items))
  {
    if service' == service {
      LookupRefreshes(cache, service, origin', items);
    }
  }

  /** Our own lookup brings us near, and from near it names a listed namespace and makes the entry fresh. */
  lemma {:induction false} MyLookupApproaches(cache: Cache, service: string, origin: string, items: seq<Item>)
    requires Distinct(items) && NamespacesOf(items, service) != []
    ensures var (cache', answer) := Lookup(cache, service, origin, Services(items));
            && answer.Found?
            && Near(cache', service, answer.namespace, items)
            && (Near(cache, service, origin, items) ==>
                  Fresh(cache', service, items) && answer.namespace in NamespacesOf(items, service))
  {
    LookupRefreshes(cache, service, origin, items);
    if Fresh(cache, service, items) {
      FreshNonEmpty(cache, service, items);
    }
  }

  lemma {:induction false} ConvergingStep(s: Lookups, step: Step, service: string, items: seq<Item>)
    requires Distinct(items) && NamespacesOf(items, service) != [] && "" !in NamespacesOf(items, service)
    requires Converging(s, service, items)
    ensures Converging(Next(s, step, service, items), service, items)
  {
    match step
    case Other(service', origin') =>
      OtherLookupKeeps(s.cache, service, s.origin, service', origin', items);
    case Mine =>
      MyLookupApproaches(s.cache, service, s.origin, items);
      LookupRefreshes(s.cache, service, s.origin, items);
      if Fresh(s.cache, service, items) {
        FreshNonEmpty(s.cache, service, items);
      }
  }

  lemma {:induction false} RunConverges(
    cache: Cache, origin: string, trace: seq<Step>, service: string, items: seq<Item>)
    requires Distinct(items) && NamespacesOf(items, service) != [] && "" !in NamespacesOf(items, service)
    ensures Converging(Run(cache, origin, trace, service, items), service, items)
  {
    if trace != [] {
      RunConverges(cache, origin, trace[..|trace| - 1], service, items);
      ConvergingStep(Run(cache, origin, trace[..|trace| - 1], service, items), trace[|trace| - 1], service, items);
    }
  }

  /**
   * Two steps are enough. From any cache and any origin, whatever other callers look up in between,
   * every call answers, the second call names a listed namespace, and every later call repeats it as
   * unchanged.
   */
  lemma {:induction false} TwoStepConvergence(
    cache: Cache, origin: string, trace: seq<Step>, service: string, items: seq<Item>)
    requires Distinct(items) && NamespacesOf(items, service) != [] && "" !in NamespacesOf(items, service)
    ensures var answers := Run(cache, origin, trace, service, items).answers;
            && (forall k :: 0 <= k < |answers| ==> answers[k].Found?)
            && (|answers| >= 2 ==> answers[1].namespace in NamespacesOf(items, service))
            && (forall k :: 2 <= k < |answers| ==> answers[k] == Found(false, answers[1].namespace))
  {
    RunConverges(cache, origin, trace, service, items);
  }

  /** The cache is not consulted, or its head is still listed. */
  predicate OneStepSuffices(cache: Cache, service: string, origin: string, items: seq<Item>) {
    || !Cached(cache, service)
    || origin in cache[service]
    || cache[service][0] in NamespacesOf(items, service)
  }

  lemma {:induction false} OneStepExactly(cache: Cache, service: string, origin: string, items: seq<Item>)
    requires Distinct(items) && NamespacesOf(items, service) != []
    ensures var answer := Lookup(cache, service, origin, Services(items)).1;
            && answer.Found?
            && (answer.namespace in NamespacesOf(items, service) <==> OneStepSuffices(cache, service, origin, items))
  {
    LookupRefreshes(cache, service, origin, items);
  }
}
