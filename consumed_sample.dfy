/**
  The third sample of the parse test, consumed: its three properties are read
  one after the other through a servient that serves the "coap" scheme.
 */
module ConsumedSample {
  import opened Wrappers
  import opened Json
  import Uri
  import opened ThingDescriptions
  import opened TDParseTest
  import opened ConsumedThings

  /** Each sample property is found under its own name, and none of them is an action. */
  lemma FindSampleProperties()
    ensures var ias := Description3.interactions;
      && FindInteraction(ias, "temperature", Property) == Some(ias[0])
      && FindInteraction(ias, "temperature2", Property) == Some(ias[1])
      && FindInteraction(ias, "humidity", Property) == Some(ias[2])
      && FindInteraction(ias, "temperature", Action) == None
  {
    var ias := Description3.interactions;
    assert |ias| == 3;
    assert ias[0].name == "temperature" && ias[1].name == "temperature2" && ias[2].name == "humidity";
    assert ias[0].pattern == ias[1].pattern == ias[2].pattern == Property;
    assert |"temperature"| != |"temperature2"| && |"temperature"| != |"humidity"| && |"temperature2"| != |"humidity"|;
    FindThreeProperties(ias, "temperature", "temperature2", "humidity");
  }

  /** Three properties with different names are each found under their own name, and none as an action. */
  lemma FindThreeProperties(ias: seq<Interaction>, n0: string, n1: string, n2: string)
    requires |ias| == 3 && ias[0].pattern == ias[1].pattern == ias[2].pattern == Property
    requires ias[0].name == n0 && ias[1].name == n1 && ias[2].name == n2
    requires n0 != n1 && n0 != n2 && n1 != n2
    ensures && FindInteraction(ias, n0, Property) == Some(ias[0])
            && FindInteraction(ias, n1, Property) == Some(ias[1])
            && FindInteraction(ias, n2, Property) == Some(ias[2])
            && FindInteraction(ias, n0, Action) == None
  {
    assert FindInteraction(ias, n0, Property) == Some(ias[0]) by {
      FoundAt(ias, n0, Property, 0);
    }
    assert FindInteraction(ias, n1, Property) == Some(ias[1]) by {
      FoundAt(ias, n1, Property, 1);
    }
    assert FindInteraction(ias, n2, Property) == Some(ias[2]) by {
      FoundAt(ias, n2, Property, 2);
    }
    assert FindInteraction(ias, n0, Action) == None by {
      PropertyIsNotAnAction(ias, n0);
    }
  }

  /** An interaction that matches, with none before it matching, is the one found. */
  lemma FoundAt(ias: seq<Interaction>, name: string, pattern: InteractionPattern, i: nat)
    requires i < |ias| && Matches(ias[i], name, pattern)
    requires forall k :: 0 <= k < i ==> !Matches(ias[k], name, pattern)
    ensures FindInteraction(ias, name, pattern) == Some(ias[i])
  {
    var r := FindInteraction(ias, name, pattern);
    var j :| 0 <= j < |ias| && ias[j] == r.value && Matches(ias[j], name, pattern)
             && forall k :: 0 <= k < j ==> !Matches(ias[k], name, pattern);
    assert i == j;
  }

  /** A link of the sample on a "coap" address is served by the registry's client, cached or not. */
  lemma ChooseCoap(clients: map<string, ProtocolClient>, client: ProtocolClient, link: InteractionLink)
    requires clients == map[] || clients == map[Scheme := client]
    requires Schemes([link]) == [Scheme]
    ensures ClientFor(clients, Servient(map[Scheme := Some(client)]), [link])
         == (Ok(ClientAndLink(client, link)), map[Scheme := client])
  {
    var srv := Servient(map[Scheme := Some(client)]);
    ChooseSelects(clients, srv, [Scheme], 0);
    if clients == map[] {
      assert map[][Scheme := client] == map[Scheme := client];
    }
  }

  lemma SchemesOfOneLink(link: InteractionLink, scheme: string)
    requires Uri.ExtractScheme(link.href) == scheme
    ensures Schemes([link]) == [scheme]
  {
  }

  /** Where each property read goes, from an empty cache or one already holding the "coap" client. */
  lemma SampleRoutes(clients: map<string, ProtocolClient>, client: ProtocolClient)
    requires clients == map[] || clients == map[Scheme := client]
    ensures var srv := Servient(map[Scheme := Some(client)]);
      var ias := Description3.interactions;
      && Route(clients, srv, ias, "temperature", Property) == (Ok(ClientAndLink(client, ias[0].links[0])), map[Scheme := client])
      && Route(clients, srv, ias, "temperature2", Property) == (Ok(ClientAndLink(client, ias[1].links[0])), map[Scheme := client])
      && Route(clients, srv, ias, "humidity", Property) == (Ok(ClientAndLink(client, ias[2].links[0])), map[Scheme := client])
  {
    var ias := Description3.interactions;
    FindSampleProperties();
    SampleSchemes();
    SchemesOfOneLink(ias[0].links[0], Scheme);
    SchemesOfOneLink(ias[1].links[0], Scheme);
    SchemesOfOneLink(ias[2].links[0], Scheme);
    ChooseCoap(clients, client, ias[0].links[0]);
    ChooseCoap(clients, client, ias[1].links[0]);
    ChooseCoap(clients, client, ias[2].links[0]);
  }

  /**
    Reading the three properties in turn: the first read obtains the client
    from the registry and caches it under "coap", the next two find it in
    the cache, and each issues exactly one read, on its own resolved
    address.
   */
  method ReadSampleProperties(client: ProtocolClient) returns (results: seq<Result<Request, DispatchError>>, cache: map<string, ProtocolClient>)
    ensures results == [Ok(ReadResource(client, InteractionsTemp)),
                        Ok(ReadResource(client, InteractionsTemp)),
                        Ok(ReadResource(client, Humid))]
    ensures cache == map[Scheme := client]
  {
    var srv := Servient(map[Scheme := Some(client)]);
    var thing := new ConsumedThing(srv, Description3);
    SampleRoutes(map[], client);
    SampleRoutes(map[Scheme := client], client);
    var first := thing.GetProperty("temperature");
    var second := thing.GetProperty("temperature2");
    var third := thing.GetProperty("humidity");
    results := [first, second, third];
    cache := thing.clients;
  }
}
