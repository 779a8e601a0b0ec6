/**
  The consumer side of a Thing: a consumed thing looks up an interaction of
  its Thing Description by name and kind, picks a protocol client and one of
  the interaction's links for it, and delegates a single read, write or
  invoke on that link's address. Clients are cached per URI scheme, for the
  lifetime of the consumed thing.
 */
module ConsumedThings {
  import opened Wrappers
  import opened Json
  import Uri
  import opened ThingDescriptions

  /** A protocol client handle; the model tells clients apart by identity only. */
  datatype ProtocolClient = ProtocolClient(id: nat)

  /**
    The servient's transport registry, as the consumed thing uses it: the
    schemes it has a client factory for, and the client each of them yields
    (None when the factory hands back no client).
   */
  datatype Servient = Servient(factories: map<string, Option<ProtocolClient>>)
  {
    predicate HasClientFor(scheme: string)
    {
      scheme in factories
    }

    function GetClientFor(scheme: string): (c: Option<ProtocolClient>)
      ensures c.Some? ==> HasClientFor(scheme) && factories[scheme] == c
    {
      if scheme in factories then factories[scheme] else None
    }
  }

  /** The client chosen for an interaction and the link it is to be used on. */
  datatype ClientAndLink = ClientAndLink(client: ProtocolClient, link: InteractionLink)

  datatype DispatchError =
    | NoLinks                          // the interaction has no links
    | NoClientAvailable                // no scheme of the links is cached or registered
    | ClientUnavailable(scheme: string) // the registry yielded no client for the chosen scheme
    | InteractionNotFound(name: string, pattern: InteractionPattern)
    | PayloadRejected                  // the value to send cannot be wrapped in a buffer

  /** The one transport call an operation delegates, on the chosen client and address. */
  datatype Request =
    | ReadResource(client: ProtocolClient, href: string)
    | WriteResource(client: ProtocolClient, href: string, payload: Json)
    | InvokeResource(client: ProtocolClient, href: string, parameter: Json)

  /**
    Whether Node's `new Buffer(value)`, which wraps the payload of a write and
    the parameter of an invoke, accepts a value instead of throwing. It
    accepts a string, a number that is not negative (a size), an array, and an
    object that looks like an array (one with a "length" member) or like a
    serialized buffer ({"type": "Buffer", "data": [...]}). It throws on a
    missing value, null, a boolean, a negative size and any other object.
   */
  predicate BufferAccepts(value: Option<Json>)
  {
    match value
    case None => false
    case Some(JNull) => false
    case Some(JBool(_)) => false
    case Some(JNum(literal)) => literal == [] || literal[0] != '-'
    case Some(JStr(_)) => true
    case Some(JArr(_)) => true
    case Some(JObj(m)) =>
      "length" in m || (Member(m, "type") == Some(JStr("Buffer")) && "data" in m && m["data"].JArr?)
  }

  // ---------------------------------------------------------------------------
  // The ordered scans

  /** The index of the first element satisfying `p`, the way `findIndex` scans. */
  function FindIndex<T>(xs: seq<T>, p: T -> bool): (r: Option<nat>)
    ensures r.Some? ==> r.value < |xs| && p(xs[r.value]) && forall k :: 0 <= k < r.value ==> !p(xs[k])
    ensures r.None? ==> forall k :: 0 <= k < |xs| ==> !p(xs[k])
  {
    if xs == [] then None
    else if p(xs[0]) then Some(0)
    else
      match FindIndex(xs[1..], p)
      case None => None
      case Some(i) => Some(i + 1)
  }

  /** The scheme of each link's address, in link order. */
  function Schemes(links: seq<InteractionLink>): (r: seq<string>)
    ensures |r| == |links| && forall i :: 0 <= i < |links| ==> r[i] == Uri.ExtractScheme(links[i].href)
  {
    seq(|links|, i requires 0 <= i < |links| => Uri.ExtractScheme(links[i].href))
  }

  predicate Matches(ia: Interaction, name: string, pattern: InteractionPattern)
  {
    ia.pattern == pattern && ia.name == name
  }

  /** The interactions with that name and kind, in document order (the `filter`). */
  function Matching(ias: seq<Interaction>, name: string, pattern: InteractionPattern): (r: seq<Interaction>)
    ensures |r| <= |ias|
  {
    if ias == [] then []
    else (if Matches(ias[0], name, pattern) then [ias[0]] else []) + Matching(ias[1..], name, pattern)
  }

  /** The filter keeps exactly the interactions that match: none that does not, and every one that does. */
  lemma {:induction false} MatchingKeepsMatches(ias: seq<Interaction>, name: string, pattern: InteractionPattern)
    ensures forall x :: x in Matching(ias, name, pattern) ==> x in ias && Matches(x, name, pattern)
    ensures forall i :: 0 <= i < |ias| && Matches(ias[i], name, pattern) ==> ias[i] in Matching(ias, name, pattern)
  {
    if ias != [] {
      var tail := ias[1..];
      MatchingKeepsMatches(tail, name, pattern);
      forall i | 0 < i < |ias| && Matches(ias[i], name, pattern) ensures ias[i] in Matching(ias, name, pattern) {
        assert ias[i] == tail[i - 1];
      }
    }
  }

  /** A first match in the tail, behind a non-matching head, is a first match of the whole. */
  lemma FirstMatchBehindHead(ias: seq<Interaction>, name: string, pattern: InteractionPattern, i: nat)
    requires ias != [] && !Matches(ias[0], name, pattern)
    requires i < |ias| - 1 && Matches(ias[1..][i], name, pattern)
    requires forall k :: 0 <= k < i ==> !Matches(ias[1..][k], name, pattern)
    ensures ias[i + 1] == ias[1..][i]
    ensures forall k :: 0 <= k < i + 1 ==> !Matches(ias[k], name, pattern)
  {
    forall k | 0 < k < i + 1 ensures !Matches(ias[k], name, pattern) {
      assert ias[k] == ias[1..][k - 1];
    }
  }

  /** The filter is empty exactly when nothing matches, and otherwise starts with the first match. */
  lemma {:induction false} MatchingStartsWithFirst(ias: seq<Interaction>, name: string, pattern: InteractionPattern)
    ensures Matching(ias, name, pattern) == [] <==> forall i :: 0 <= i < |ias| ==> !Matches(ias[i], name, pattern)
    ensures Matching(ias, name, pattern) != [] ==>
      exists i :: 0 <= i < |ias| && Matching(ias, name, pattern)[0] == ias[i] && Matches(ias[i], name, pattern)
                  && forall k :: 0 <= k < i ==> !Matches(ias[k], name, pattern)
  {
    if ias != [] {
      var tail := ias[1..];
      MatchingStartsWithFirst(tail, name, pattern);
      if Matches(ias[0], name, pattern) {
        assert Matching(ias, name, pattern)[0] == ias[0];
      } else {
        assert Matching(ias, name, pattern) == Matching(tail, name, pattern);
        if Matching(tail, name, pattern) != [] {
          var i :| 0 <= i < |tail| && Matching(tail, name, pattern)[0] == tail[i]
                   && Matches(tail[i], name, pattern)
                   && forall k :: 0 <= k < i ==> !Matches(tail[k], name, pattern);
          FirstMatchBehindHead(ias, name, pattern, i);
        } else {
          forall i | 0 < i < |ias| ensures !Matches(ias[i], name, pattern) {
            assert ias[i] == tail[i - 1];
          }
        }
      }
    }
  }

  /**
    The first interaction with that name and kind, or None: duplicates
    resolve to the first in document order, and a name that exists only
    under another kind is not found.
   */
  function FindInteraction(ias: seq<Interaction>, name: string, pattern: InteractionPattern): (r: Option<Interaction>)
    ensures r.None? <==> forall i :: 0 <= i < |ias| ==> !Matches(ias[i], name, pattern)
    ensures r.Some? ==> exists i :: 0 <= i < |ias| && ias[i] == r.value && Matches(ias[i], name, pattern)
                                    && forall k :: 0 <= k < i ==> !Matches(ias[k], name, pattern)
  {
    MatchingStartsWithFirst(ias, name, pattern);
    var res := Matching(ias, name, pattern);
    if |res| > 0 then Some(res[0]) else None
  }

  // ---------------------------------------------------------------------------
  // Client selection

  /** The position of the chosen link and the client to use on it. */
  datatype Choice = Choice(index: nat, client: ProtocolClient)

  /**
    The two-phase selection over the schemes of the links, in link order,
    with the cache afterwards: a cached scheme first, then a scheme the
    registry serves, whose client is then cached.
   */
  function Choose(clients: map<string, ProtocolClient>, srv: Servient, schemes: seq<string>)
    : (r: (Result<Choice, DispatchError>, map<string, ProtocolClient>))
    ensures r.0.Ok? ==> r.0.value.index < |schemes|
  {
    if schemes == [] then (Err(NoLinks), clients)
    else
      match FindIndex(schemes, s => s in clients)
      case Some(i) => (Ok(Choice(i, clients[schemes[i]])), clients)
      case None =>
        match FindIndex(schemes, s => srv.HasClientFor(s))
        case None => (Err(NoClientAvailable), clients)
        case Some(i) =>
          match srv.GetClientFor(schemes[i])
          case Some(c) => (Ok(Choice(i, c)), clients[schemes[i] := c])
          case None => (Err(ClientUnavailable(schemes[i])), clients)
  }

  /**
    What the selection picks. The first link whose scheme is cached wins,
    with the cached client and the cache unchanged. Failing that, the first
    link whose scheme the registry serves wins: its client is stored under
    that scheme, or the call fails if the registry yields none. No links, or
    links of which no scheme is cached or registered, fail and leave the
    cache as it was.
   */
  lemma ChooseSelects(clients: map<string, ProtocolClient>, srv: Servient, schemes: seq<string>, j: nat)
    ensures schemes == [] ==> Choose(clients, srv, schemes) == (Err(NoLinks), clients)
    ensures schemes != [] && (forall i :: 0 <= i < |schemes| ==> schemes[i] !in clients && !srv.HasClientFor(schemes[i]))
            ==> Choose(clients, srv, schemes) == (Err(NoClientAvailable), clients)
    ensures j < |schemes| && schemes[j] in clients && (forall k :: 0 <= k < j ==> schemes[k] !in clients)
            ==> Choose(clients, srv, schemes) == (Ok(Choice(j, clients[schemes[j]])), clients)
    ensures j < |schemes| && srv.HasClientFor(schemes[j])
            && (forall k :: 0 <= k < |schemes| ==> schemes[k] !in clients)
            && (forall k :: 0 <= k < j ==> !srv.HasClientFor(schemes[k]))
            ==> Choose(clients, srv, schemes) == (match srv.GetClientFor(schemes[j])
                  case Some(c) => (Ok(Choice(j, c)), clients[schemes[j] := c])
                  case None => (Err(ClientUnavailable(schemes[j])), clients))
  {
  }

  /**
    The cache only grows: every entry survives unchanged, nothing is added
    on failure, and on success at most the chosen scheme is added, mapped to
    the chosen client.
   */
  lemma CacheOnlyGrows(clients: map<string, ProtocolClient>, srv: Servient, schemes: seq<string>)
    ensures var (r, after) := Choose(clients, srv, schemes);
      && (forall s :: s in clients ==> s in after && after[s] == clients[s])
      && (r.Err? ==> after == clients)
      && (r.Ok? ==> after.Keys <= clients.Keys + {schemes[r.value.index]}
                    && after[schemes[r.value.index]] == r.value.client)
  {
  }

  /** The client and link chosen for a link list, with the cache afterwards. */
  function ClientFor(clients: map<string, ProtocolClient>, srv: Servient, links: seq<InteractionLink>)
    : (r: (Result<ClientAndLink, DispatchError>, map<string, ProtocolClient>))
    ensures var (choice, after) := Choose(clients, srv, Schemes(links));
      && r.1 == after
      && (choice.Err? ==> r.0 == Err(choice.error))
      && (choice.Ok? ==> r.0 == Ok(ClientAndLink(choice.value.client, links[choice.value.index])))
  {
    var (choice, after) := Choose(clients, srv, Schemes(links));
    match choice
    case Ok(c) => (Ok(ClientAndLink(c.client, links[c.index])), after)
    case Err(e) => (Err(e), after)
  }

  /**
    A cached scheme is preferred to an uncached one listed before it, even
    when the registry serves the earlier one.
   */
  lemma PrefersCachedClient(clients: map<string, ProtocolClient>, srv: Servient, first: string, second: string)
    requires first !in clients && second in clients
    ensures Choose(clients, srv, [first, second]) == (Ok(Choice(1, clients[second])), clients)
  {
    ChooseSelects(clients, srv, [first, second], 1);
  }

  // ---------------------------------------------------------------------------
  // Dispatch

  /** Looking an interaction up and choosing a client and link for it, with the cache afterwards. */
  function Route(clients: map<string, ProtocolClient>, srv: Servient, ias: seq<Interaction>,
                 name: string, pattern: InteractionPattern)
    : (r: (Result<ClientAndLink, DispatchError>, map<string, ProtocolClient>))
    ensures FindInteraction(ias, name, pattern).None? ==> r == (Err(InteractionNotFound(name, pattern)), clients)
    ensures FindInteraction(ias, name, pattern).Some? ==>
              r == ClientFor(clients, srv, FindInteraction(ias, name, pattern).value.links)
  {
    match FindInteraction(ias, name, pattern)
    case None => (Err(InteractionNotFound(name, pattern)), clients)
    case Some(ia) => ClientFor(clients, srv, ia.links)
  }

  /**
    The route depends on the names, kinds and links of the interactions
    only: whether a property is writable does not change where or whether
    a write goes.
   */
  lemma RouteIgnoresWritable(clients: map<string, ProtocolClient>, srv: Servient,
                             ias: seq<Interaction>, flags: seq<bool>,
                             name: string, pattern: InteractionPattern)
    requires |flags| == |ias|
    ensures var relabelled := seq(|ias|, i requires 0 <= i < |ias| => ias[i].(writable := flags[i]));
      Route(clients, srv, relabelled, name, pattern) == Route(clients, srv, ias, name, pattern)
  {
    var relabelled := seq(|ias|, i requires 0 <= i < |ias| => ias[i].(writable := flags[i]));
    FindSameLinks(relabelled, ias, name, pattern);
  }

  /** Two lists that agree on names, kinds and links find interactions with the same links. */
  lemma FindSameLinks(xs: seq<Interaction>, ys: seq<Interaction>, name: string, pattern: InteractionPattern)
    requires |xs| == |ys|
    requires forall i :: 0 <= i < |xs| ==> xs[i].name == ys[i].name && xs[i].pattern == ys[i].pattern
    requires forall i :: 0 <= i < |xs| ==> xs[i].links == ys[i].links
    ensures FindInteraction(xs, name, pattern).Some? == FindInteraction(ys, name, pattern).Some?
    ensures FindInteraction(xs, name, pattern).Some? ==>
              FindInteraction(xs, name, pattern).value.links == FindInteraction(ys, name, pattern).value.links
  {
    var a := FindInteraction(xs, name, pattern);
    var b := FindInteraction(ys, name, pattern);
    if a.Some? {
      var i :| 0 <= i < |xs| && xs[i] == a.value && Matches(xs[i], name, pattern)
               && forall k :: 0 <= k < i ==> !Matches(xs[k], name, pattern);
      assert Matches(ys[i], name, pattern);
      var j :| 0 <= j < |ys| && ys[j] == b.value && Matches(ys[j], name, pattern)
               && forall k :: 0 <= k < j ==> !Matches(ys[k], name, pattern);
      assert Matches(xs[j], name, pattern);
      assert i == j;
    } else {
      assert b.None? by {
        if b.Some? {
          var j :| 0 <= j < |ys| && ys[j] == b.value && Matches(ys[j], name, pattern);
          assert Matches(xs[j], name, pattern);
        }
      }
    }
  }

  /** A name that only properties carry is not found as an action. */
  lemma PropertyIsNotAnAction(ias: seq<Interaction>, name: string)
    requires forall i :: 0 <= i < |ias| && ias[i].name == name ==> ias[i].pattern == Property
    ensures FindInteraction(ias, name, Action) == None
  {
  }

  /** The thing a consumer holds: its description, the servient and the per-scheme client cache. */
  class ConsumedThing {
    const name: string
    const td: ThingDescription
    const srv: Servient
    var clients: map<string, ProtocolClient>

    /** A consumed thing starts with an empty cache. */
    constructor(servient: Servient, td: ThingDescription)
      ensures this.srv == servient && this.td == td && this.name == td.name
      ensures clients == map[]
    {
      this.srv := servient;
      this.name := td.name;
      this.td := td;
      this.clients := map[];
    }

    /** Chooses a client and link for `links`, caching a client newly obtained from the registry. */
    method GetClientFor(links: seq<InteractionLink>) returns (r: Result<ClientAndLink, DispatchError>)
      modifies this
      ensures (r, clients) == ClientFor(old(clients), srv, links)
    {
      if |links| == 0 {
        return Err(NoLinks);
      }
      var schemes := Schemes(links);
      var cache := clients;
      var cacheIdx := FindIndex(schemes, s => s in cache);
      if cacheIdx.Some? {
        var i := cacheIdx.value;
        return Ok(ClientAndLink(clients[schemes[i]], links[i]));
      }
      var registry := srv;
      var srvIdx := FindIndex(schemes, s => registry.HasClientFor(s));
      if srvIdx.None? {
        return Err(NoClientAvailable);
      }
      var i := srvIdx.value;
      var client := srv.GetClientFor(schemes[i]);
      if client.Some? {
        clients := clients[schemes[i] := client.value];
        return Ok(ClientAndLink(client.value, links[i]));
      } else {
        return Err(ClientUnavailable(schemes[i]));
      }
    }

    /** Looks an interaction up and chooses a client and link for it. */
    method Dispatch(interactionName: string, pattern: InteractionPattern) returns (r: Result<ClientAndLink, DispatchError>)
      modifies this
      ensures (r, clients) == Route(old(clients), srv, td.interactions, interactionName, pattern)
    {
      var ia := FindInteraction(td.interactions, interactionName, pattern);
      if ia.None? {
        return Err(InteractionNotFound(interactionName, pattern));
      }
      r := GetClientFor(ia.value.links);
    }

    /** Reads a property: one read on the chosen link's address. */
    method GetProperty(propertyName: string) returns (r: Result<Request, DispatchError>)
      modifies this
      ensures var (route, cache) := Route(old(clients), srv, td.interactions, propertyName, Property);
        && clients == cache
        && r == match route
                case Ok(c) => Ok(ReadResource(c.client, c.link.href))
                case Err(e) => Err(e)
    {
      var target := Dispatch(propertyName, Property);
      match target
      case Ok(c) => r := Ok(ReadResource(c.client, c.link.href));
      case Err(e) => r := Err(e);
    }

    /**
      Writes a property: one write of `newValue` on the chosen link's address;
      `writable` is not consulted. A value the buffer constructor refuses
      rejects the write after the client has been chosen (and cached).
     */
    method SetProperty(propertyName: string, newValue: Json) returns (r: Result<Request, DispatchError>)
      modifies this
      ensures var (route, cache) := Route(old(clients), srv, td.interactions, propertyName, Property);
        && clients == cache
        && r == match route
                case Ok(c) =>
                  if BufferAccepts(Some(newValue)) then Ok(WriteResource(c.client, c.link.href, newValue))
                  else Err(PayloadRejected)
                case Err(e) => Err(e)
    {
      var target := Dispatch(propertyName, Property);
      match target
      case Ok(c) =>
        if BufferAccepts(Some(newValue)) {
          r := Ok(WriteResource(c.client, c.link.href, newValue));
        } else {
          r := Err(PayloadRejected);
        }
      case Err(e) => r := Err(e);
    }

    /**
      Invokes an action: one invoke with the parameter on the chosen link's
      address. The parameter is optional, but the buffer constructor throws on
      a missing one, so an omitted parameter rejects the call after the client
      has been chosen (and cached), as any other refused value does.
     */
    method InvokeAction(actionName: string, parameter: Option<Json>) returns (r: Result<Request, DispatchError>)
      modifies this
      ensures var (route, cache) := Route(old(clients), srv, td.interactions, actionName, Action);
        && clients == cache
        && r == match route
                case Ok(c) =>
                  if BufferAccepts(parameter) then Ok(InvokeResource(c.client, c.link.href, parameter.value))
                  else Err(PayloadRejected)
                case Err(e) => Err(e)
    {
      var target := Dispatch(actionName, Action);
      match target
      case Ok(c) =>
        if BufferAccepts(parameter) {
          r := Ok(InvokeResource(c.client, c.link.href, parameter.value));
        } else {
          r := Err(PayloadRejected);
        }
      case Err(e) => r := Err(e);
    }

    /** The description as a document; for a parsed description, reading it back gives it again. */
    function GetDescription(): (doc: Json)
      ensures WellFormed(td) ==> Parse(doc) == Ok(td)
    {
      assert WellFormed(td) ==> Parse(Serialize(td)) == Ok(td) by {
        if WellFormed(td) { ParseSerialize(td); }
      }
      Serialize(td)
    }
  }
}
