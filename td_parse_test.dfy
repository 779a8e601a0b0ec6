/**
  The three sample documents of the Thing Description parse test and what the
  test expects of them: the parsed model of each, the resolution of the
  relative hrefs of the third against its base, and the round trip through
  serialization.
 */
module TDParseTest {
  import opened Wrappers
  import opened Json
  import Uri
  import opened ThingDescriptions

  // ---------------------------------------------------------------------------
  // The addresses of the samples

  const Scheme := "coap"
  const Authority := "mytemp.example.com:5683"
  const TempHref := "coap://mytemp.example.com:5683/temp"
  const Base := "coap://mytemp.example.com:5683/interactions/"
  const InteractionsTemp := "coap://mytemp.example.com:5683/interactions/temp"
  const Humid := "coap://mytemp.example.com:5683/humid"

  /** A reference made of a path alone. */
  function PathRef(path: string): Uri.UriRef
  {
    Uri.UriRef(None, None, path, None, None)
  }

  /** A scheme and an authority that an address can carry: a non-empty scheme free of ":/?#", an authority free of "/?#". */
  predicate Host(scheme: string, authority: string)
  {
    scheme != [] && Uri.NoneIn(scheme, Uri.SchemeEnd) && Uri.NoneIn(authority, Uri.AuthorityEnd)
  }

  /** An address with the given scheme, authority and path. */
  function HostRef(scheme: string, authority: string, path: string): Uri.UriRef
  {
    Uri.UriRef(Some(scheme), Some(authority), path, None, None)
  }

  lemma SampleHost()
    ensures Host(Scheme, Authority)
  {
    assert Uri.NoneIn(Scheme, Uri.SchemeEnd);
    assert Uri.NoneIn(Authority, Uri.AuthorityEnd);
  }

  /** An address with an absolute path splits back into its components. */
  lemma HostRefSplits(scheme: string, authority: string, path: string)
    requires Host(scheme, authority)
    requires path != [] && path[0] == '/' && !Uri.StartsWith(path, "//") && Uri.NoneIn(path, Uri.PathEnd)
    ensures Uri.ParseRef(Uri.Recompose(HostRef(scheme, authority, path))) == HostRef(scheme, authority, path)
    ensures Uri.IsAbsolute(Uri.Recompose(HostRef(scheme, authority, path)))
  {
    Uri.ParseRecompose(HostRef(scheme, authority, path));
  }

  /** A path without '?', '#' or ':' is a reference made of that path alone. */
  lemma PathRefSplits(path: string)
    requires Uri.NoneIn(path, {'?', '#', ':'}) && !Uri.StartsWith(path, "//")
    ensures Uri.ParseRef(path) == PathRef(path)
  {
    assert !Uri.HasSchemePrefix(path) by {
      var i := Uri.FindAny(path, Uri.SchemeEnd);
      assert i < |path| ==> path[i] != ':';
    }
    assert Uri.Recompose(PathRef(path)) == path;
    Uri.ParseRecompose(PathRef(path));
  }

  // ---------------------------------------------------------------------------
  // Resolution against a base with a directory path

  /** A path segment with no character that ends a segment or a component, and not a dot segment. */
  predicate Plain(x: string)
  {
    x != [] && Uri.NoneIn(x, {'/', '?', '#', ':'}) && x != "." && x != ".."
  }

  /** A plain segment stands for itself as a reference. */
  lemma PlainRef(b: string)
    requires Plain(b)
    ensures Uri.ParseRef(b) == PathRef(b) && !Uri.IsAbsolute(b)
  {
    assert b[0] != '/';
    PathRefSplits(b);
  }

  /** "/a/" as a base path is its own directory and splits back from its address. */
  lemma DirectoryBase(scheme: string, authority: string, a: string)
    requires Host(scheme, authority) && Plain(a)
    ensures Uri.ParseRef(Uri.Recompose(HostRef(scheme, authority, "/" + a + "/"))) == HostRef(scheme, authority, "/" + a + "/")
    ensures Uri.IsAbsolute(Uri.Recompose(HostRef(scheme, authority, "/" + a + "/")))
    ensures Uri.DirectoryOf("/" + a + "/") == "/" + a + "/"
  {
    var dir := "/" + a + "/";
    assert dir[0] == '/' && dir[1] == a[0] && a[0] != '/' && dir[|dir| - 1] == '/';
    assert !Uri.StartsWith(dir, "//");
    assert Uri.NoneIn(dir, Uri.PathEnd) by {
      forall k | 0 <= k < |dir| ensures dir[k] !in Uri.PathEnd {
        if 0 < k < |dir| - 1 { assert dir[k] == a[k - 1]; }
      }
    }
    HostRefSplits(scheme, authority, dir);
  }

  /** A plain relative href against a base with path "/a/" is appended to the base directory, on the base's host. */
  lemma ResolveMergedPlain(scheme: string, authority: string, a: string, b: string)
    requires Host(scheme, authority) && Plain(a) && Plain(b)
    ensures Uri.ResolveHref(Some(Uri.Recompose(HostRef(scheme, authority, "/" + a + "/"))), b)
         == Some(Uri.Recompose(HostRef(scheme, authority, "/" + a + "/" + b)))
  {
    var dir := "/" + a + "/";
    var base := Uri.Recompose(HostRef(scheme, authority, dir));
    assert Uri.ParseRef(base) == HostRef(scheme, authority, dir) && Uri.IsAbsolute(base) by {
      DirectoryBase(scheme, authority, a);
    }
    assert Uri.ParseRef(b) == PathRef(b) && !Uri.IsAbsolute(b) && b[0] != '/' by {
      PlainRef(b);
    }
    assert Uri.Resolve(HostRef(scheme, authority, dir), PathRef(b)) == HostRef(scheme, authority, "/" + a + "/" + b) by {
      MergedPath(scheme, authority, a, b);
    }
  }

  /** The path "/a/" merged with the plain segment b and cleared of dot segments. */
  lemma MergedPath(scheme: string, authority: string, a: string, b: string)
    requires Host(scheme, authority) && Plain(a) && Plain(b)
    ensures Uri.RemoveDotSegments(Uri.Merge(HostRef(scheme, authority, "/" + a + "/"), b)) == "/" + a + "/" + b
  {
    var dir := "/" + a + "/";
    calc {
      Uri.RemoveDotSegments(Uri.Merge(HostRef(scheme, authority, dir), b));
      { DirectoryBase(scheme, authority, a); }
      Uri.RemoveDots(dir + b, "");
      { FirstPlainStep(a, b); }
      Uri.RemoveDots("/" + b, "/" + a);
      { SecondPlainStep(a, b); }
      "/" + a + "/" + b;
    }
  }

  /** Rule E moves the segment "/a" of "/a/b" to the empty output. */
  lemma FirstPlainStep(a: string, b: string)
    requires a != [] && Uri.NoneIn(a, {'/'}) && a != "." && a != ".."
    ensures Uri.RemoveDots("/" + a + "/" + b, "") == Uri.RemoveDots("/" + b, "/" + a)
  {
    calc {
      Uri.RemoveDots("/" + a + "/" + b, "");
      { assert "/" + a + "/" + b == "/" + a + ("/" + b); }
      Uri.RemoveDots("/" + a + ("/" + b), "");
      { Uri.PlainSegment(a, "/" + b, ""); }
      Uri.RemoveDots("/" + b, "" + "/" + a);
      { assert "" + "/" + a == "/" + a; }
      Uri.RemoveDots("/" + b, "/" + a);
    }
  }

  /** Rule E then moves the segment "/b" after "/a", and the input is used up. */
  lemma SecondPlainStep(a: string, b: string)
    requires Plain(b)
    ensures Uri.RemoveDots("/" + b, "/" + a) == "/" + a + "/" + b
  {
    assert "/" + b + "" == "/" + b;
    Uri.PlainSegment(b, "", "/" + a);
  }

  /** An address with path "/b" is absolute. */
  lemma RootPathSplits(scheme: string, authority: string, b: string)
    requires Host(scheme, authority) && Plain(b)
    ensures Uri.IsAbsolute(Uri.Recompose(HostRef(scheme, authority, "/" + b)))
  {
    var path := "/" + b;
    assert path[0] == '/' && path[1] == b[0] && b[0] != '/';
    assert !Uri.StartsWith(path, "//");
    assert Uri.NoneIn(path, Uri.PathEnd) by {
      forall k | 0 <= k < |path| ensures path[k] !in Uri.PathEnd {
        if 0 < k { assert path[k] == b[k - 1]; }
      }
    }
    HostRefSplits(scheme, authority, path);
  }

  /** An href "/b" against a base with path "/a/" replaces the whole base path and keeps the base's host. */
  lemma ResolveRootPlain(scheme: string, authority: string, a: string, b: string)
    requires Host(scheme, authority) && Plain(a) && Plain(b)
    ensures Uri.ResolveHref(Some(Uri.Recompose(HostRef(scheme, authority, "/" + a + "/"))), "/" + b)
         == Some(Uri.Recompose(HostRef(scheme, authority, "/" + b)))
  {
    var dir := "/" + a + "/";
    var path := "/" + b;
    calc {
      Uri.ResolveHref(Some(Uri.Recompose(HostRef(scheme, authority, dir))), path);
      { DirectoryBase(scheme, authority, a); RootRef(b); }
      Some(Uri.Recompose(Uri.Resolve(HostRef(scheme, authority, dir), PathRef(path))));
      { RootPathClean(b); }
      Some(Uri.Recompose(HostRef(scheme, authority, path)));
    }
  }

  /** The path "/b" has no dot segment to remove. */
  lemma RootPathClean(b: string)
    requires Plain(b)
    ensures Uri.RemoveDotSegments("/" + b) == "/" + b
  {
    assert "/" + b + "" == "/" + b;
    Uri.PlainSegment(b, "", "");
  }

  /** The href "/b" is a reference made of that path alone. */
  lemma RootRef(b: string)
    requires Plain(b)
    ensures Uri.ParseRef("/" + b) == PathRef("/" + b)
  {
    var path := "/" + b;
    assert path[1] == b[0];
    assert Uri.NoneIn(path, {'?', '#', ':'}) by {
      forall k | 0 <= k < |path| ensures path[k] !in {'?', '#', ':'} {
        if 0 < k { assert path[k] == b[k - 1]; }
      }
    }
    PathRefSplits(path);
  }

  // ---------------------------------------------------------------------------
  // The three hrefs of the third sample

  /** Every address on the sample host is this prefix followed by the path. */
  const HostPrefix := "coap://mytemp.example.com:5683"

  lemma HostPrefixParts()
    ensures HostPrefix == Scheme + ":" + ("//" + Authority)
  {
  }

  lemma HostText(path: string)
    ensures Uri.Recompose(HostRef(Scheme, Authority, path)) == HostPrefix + path
  {
    HostPrefixParts();
    assert Uri.Recompose(HostRef(Scheme, Authority, path)) == (Scheme + ":") + (("//" + Authority) + (path + ("" + "")));
  }

  lemma AddressesOnHost()
    ensures Base == HostPrefix + "/interactions/"
    ensures InteractionsTemp == HostPrefix + "/interactions/temp"
    ensures Humid == HostPrefix + "/humid"
    ensures TempHref == HostPrefix + "/temp"
  {
  }

  lemma SampleSegments()
    ensures "/" + "interactions" + "/" == "/interactions/"
    ensures "/" + "interactions" + "/" + "temp" == "/interactions/temp"
    ensures "/" + "humid" == "/humid"
    ensures "/" + "temp" == "/temp"
    ensures "./" + "temp" == "./temp"
    ensures Plain("interactions") && Plain("temp") && Plain("humid")
  {
  }

  /** The href of the first two samples is an absolute URI. */
  lemma TempHrefIsAbsolute()
    ensures Uri.IsAbsolute(TempHref)
  {
    AddressesOnHost();
    SampleSegments();
    HostText("/temp");
    SampleHost();
    RootPathSplits(Scheme, Authority, "temp");
  }

  /** "temp" is merged with the directory of the base path. */
  lemma ResolveTemp()
    ensures Uri.ResolveHref(Some(Base), "temp") == Some(InteractionsTemp)
  {
    AddressesOnHost();
    SampleSegments();
    HostText("/interactions/");
    HostText("/interactions/temp");
    SampleHost();
    ResolveMergedPlain(Scheme, Authority, "interactions", "temp");
  }

  /** "./temp" names the same resource as "temp". */
  lemma ResolveDotTemp()
    ensures Uri.ResolveHref(Some(Base), "./temp") == Some(InteractionsTemp)
  {
    SampleSegments();
    PlainRef("temp");
    Uri.ResolveDotSlash(Some(Base), "temp");
    ResolveTemp();
  }

  /** "/humid" replaces the whole base path and keeps its scheme and authority. */
  lemma ResolveHumid()
    ensures Uri.ResolveHref(Some(Base), "/humid") == Some(Humid)
  {
    AddressesOnHost();
    SampleSegments();
    HostText("/interactions/");
    HostText("/humid");
    SampleHost();
    ResolveRootPlain(Scheme, Authority, "interactions", "humid");
  }

  /** The base, and so every address resolved against it, has the scheme "coap". */
  lemma SampleSchemes()
    ensures Uri.ExtractScheme(Base) == Scheme
    ensures Uri.ExtractScheme(InteractionsTemp) == Scheme
    ensures Uri.ExtractScheme(Humid) == Scheme
  {
    assert Uri.ParseRef(Base).scheme == Some(Scheme) by {
      AddressesOnHost();
      SampleSegments();
      HostText("/interactions/");
      SampleHost();
      DirectoryBase(Scheme, Authority, "interactions");
    }
    assert !Uri.IsAbsolute("temp") by {
      SampleSegments();
      PlainRef("temp");
    }
    assert !Uri.IsAbsolute("/humid") by {
      ResolveHumid();
      assert |Humid| != |"/humid"|;
    }
    ResolveTemp();
    ResolveHumid();
  }

  // ---------------------------------------------------------------------------
  // The sample documents, already decoded

  const JsonMedia := "application/json"
  const ContextUri := "http://w3c.github.io/wot/w3c-wot-td-context.jsonld"

  /** A link object of the samples: an href and the JSON media type. */
  function LinkObject(href: string): Json
  {
    JObj(map["href" := JStr(href), "mediaType" := JStr(JsonMedia)])
  }

  /** A number-valued property object of the samples with a single link. */
  function PropertyObject(name: string, writable: bool, href: string): Json
  {
    JObj(map[
      "@type" := JArr([JStr("Property")]),
      "name" := JStr(name),
      "outputData" := JObj(map["type" := JStr("number")]),
      "writable" := JBool(writable),
      "link" := JArr([LinkObject(href)])])
  }

  /** The root object of the samples: the context, the type "Thing", a name, an optional base, the interactions. */
  function SampleDocument(name: string, base: Option<string>, interactions: seq<Json>): Json
  {
    var fields := map[
      "@context" := JArr([JStr(ContextUri)]),
      "@type" := JArr([JStr("Thing")]),
      "name" := JStr(name),
      "interaction" := JArr(interactions)];
    JObj(fields + if base.Some? then map["base" := JStr(base.value)] else map[])
  }

  const Sample1 := SampleDocument("MyTemperatureThing", None, [PropertyObject("temperature", false, TempHref)])
  const Sample2 := SampleDocument("MyTemperatureThing2", None, [PropertyObject("temperature", true, TempHref)])
  const Sample3 := SampleDocument("MyTemperatureThing3", Some(Base), [
    PropertyObject("temperature", true, "temp"),
    PropertyObject("temperature2", false, "./temp"),
    PropertyObject("humidity", false, "/humid")])

  // ---------------------------------------------------------------------------
  // The descriptions the test expects

  function SampleProperty(name: string, writable: bool, href: string): Interaction
  {
    Interaction(name, Property, ["Property"], writable, Some(JObj(map["type" := JStr("number")])),
      [InteractionLink(href, Some(JsonMedia))])
  }

  function SampleDescription(name: string, base: Option<string>, interactions: seq<Interaction>): ThingDescription
  {
    ThingDescription(name, [JStr(ContextUri)], Some("Thing"), base, interactions)
  }

  const Description1 := SampleDescription("MyTemperatureThing", None, [SampleProperty("temperature", false, TempHref)])
  const Description2 := SampleDescription("MyTemperatureThing2", None, [SampleProperty("temperature", true, TempHref)])
  /** The third sample as written, before its hrefs are resolved. */
  const Written3 := SampleDescription("MyTemperatureThing3", Some(Base), [
    SampleProperty("temperature", true, "temp"),
    SampleProperty("temperature2", false, "./temp"),
    SampleProperty("humidity", false, "/humid")])
  const Description3 := SampleDescription("MyTemperatureThing3", Some(Base), [
    SampleProperty("temperature", true, InteractionsTemp),
    SampleProperty("temperature2", false, InteractionsTemp),
    SampleProperty("humidity", false, Humid)])

  /** A sample property object is what its description serializes to. */
  lemma SerializeSampleProperty(name: string, writable: bool, href: string)
    ensures SerializeInteraction(SampleProperty(name, writable, href)) == PropertyObject(name, writable, href)
  {
    var m := SerializeInteraction(SampleProperty(name, writable, href)).members;
    var n := PropertyObject(name, writable, href).members;
    SerializedPropertyKeys(name, writable, href);
    SerializedPropertyValues(name, writable, href);
    assert m == n;
  }

  /** The members a sample property serializes to, which are those of the sample's property objects. */
  lemma SerializedPropertyKeys(name: string, writable: bool, href: string)
    ensures SerializeInteraction(SampleProperty(name, writable, href)).members.Keys
         == PropertyObject(name, writable, href).members.Keys
         == {"@type", "name", "outputData", "writable", "link"}
  {
  }

  /** The value of each member a sample property serializes to. */
  lemma SerializedPropertyValues(name: string, writable: bool, href: string)
    ensures var m := SerializeInteraction(SampleProperty(name, writable, href)).members;
      && m["@type"] == JArr([JStr("Property")])
      && m["name"] == JStr(name)
      && m["outputData"] == JObj(map["type" := JStr("number")])
      && m["writable"] == JBool(writable)
      && m["link"] == JArr([LinkObject(href)])
  {
    assert SerializeStrings(["Property"]) == [JStr("Property")];
    SampleLinks(href);
  }

  /** A sample property is a well-formed property interaction. */
  lemma SamplePropertyWellFormed(name: string, writable: bool, href: string)
    ensures WellFormedInteraction(SampleProperty(name, writable, href))
  {
    assert PatternOf("Property") == Some(Property);
  }

  /** The link of a sample property serializes to the sample's link object. */
  lemma SampleLinks(href: string)
    ensures SerializeLinks([InteractionLink(href, Some(JsonMedia))]) == [LinkObject(href)]
  {
    var m := SerializeLink(InteractionLink(href, Some(JsonMedia))).members;
    assert m == map["href" := JStr(href), "mediaType" := JStr(JsonMedia)];
  }

  /** A sample document is what its description serializes to. */
  lemma SerializeSampleDescription(name: string, base: Option<string>, ias: seq<Interaction>, objs: seq<Json>)
    requires |objs| == |ias| && forall i :: 0 <= i < |ias| ==> objs[i] == SerializeInteraction(ias[i])
    ensures Serialize(SampleDescription(name, base, ias)) == SampleDocument(name, base, objs)
  {
    assert SerializeInteractions(ias) == objs;
    var extra := if base.Some? then map["base" := JStr(base.value)] else map[];
    RootFieldsAgree(JArr([JStr(ContextUri)]), JArr([JStr("Thing")]), JStr(name), JArr(objs), extra);
  }

  /** The root fields, in the order the serializer adds them and in the order the samples list them. */
  lemma RootFieldsAgree(context: Json, rootType: Json, name: Json, interactions: Json, extra: map<string, Json>)
    ensures map["@context" := context, "name" := name, "interaction" := interactions] + map["@type" := rootType] + extra
         == map["@context" := context, "@type" := rootType, "name" := name, "interaction" := interactions] + extra
  {
  }

  // ---------------------------------------------------------------------------
  // What the test expects

  /** A sample document with no base and one property on an absolute address parses to its description. */
  lemma ParseOneProperty(thingName: string, name: string, writable: bool, href: string)
    requires Uri.IsAbsolute(href)
    ensures var td := SampleDescription(thingName, None, [SampleProperty(name, writable, href)]);
      && Parse(SampleDocument(thingName, None, [PropertyObject(name, writable, href)])) == Ok(td)
      && Serialize(td) == SampleDocument(thingName, None, [PropertyObject(name, writable, href)])
  {
    OnePropertySerializes(thingName, name, writable, href);
    OnePropertyWellFormed(thingName, name, writable, href);
    ParseSerialize(SampleDescription(thingName, None, [SampleProperty(name, writable, href)]));
  }

  lemma OnePropertySerializes(thingName: string, name: string, writable: bool, href: string)
    ensures Serialize(SampleDescription(thingName, None, [SampleProperty(name, writable, href)]))
         == SampleDocument(thingName, None, [PropertyObject(name, writable, href)])
  {
    SerializeSampleProperty(name, writable, href);
    SerializeSampleDescription(thingName, None, [SampleProperty(name, writable, href)], [PropertyObject(name, writable, href)]);
  }

  lemma OnePropertyWellFormed(thingName: string, name: string, writable: bool, href: string)
    requires Uri.IsAbsolute(href)
    ensures WellFormed(SampleDescription(thingName, None, [SampleProperty(name, writable, href)]))
  {
    var ia := SampleProperty(name, writable, href);
    SamplePropertyWellFormed(name, writable, href);
    assert ia.links == [InteractionLink(href, Some(JsonMedia))];
  }

  /** The first sample: a read-only property with an absolute href and no base. */
  lemma ParseSample1()
    ensures Parse(Sample1) == Ok(Description1)
    ensures Serialize(Description1) == Sample1
  {
    TempHrefIsAbsolute();
    ParseOneProperty("MyTemperatureThing", "temperature", false, TempHref);
  }

  /** The second sample: the same property, writable. */
  lemma ParseSample2()
    ensures Parse(Sample2) == Ok(Description2)
    ensures Serialize(Description2) == Sample2
  {
    TempHrefIsAbsolute();
    ParseOneProperty("MyTemperatureThing2", "temperature", true, TempHref);
  }

  /** A sample property resolves to the same property with its href resolved. */
  lemma ResolveSampleProperty(base: Option<string>, name: string, writable: bool, href: string, target: string)
    requires Uri.ResolveHref(base, href) == Some(target)
    ensures ResolveInteraction(base, SampleProperty(name, writable, href)) == Ok(SampleProperty(name, writable, target))
  {
    var ia := SampleProperty(name, writable, href);
    var link := InteractionLink(target, Some(JsonMedia));
    assert ResolveLink(base, ia.links[0]) == Ok(link);
    var r := ResolveInteraction(base, ia);
    assert r.Ok?;
    assert r.value.links == [link];
  }

  lemma BaseIsAbsolute()
    ensures Uri.IsAbsolute(Base)
  {
    AddressesOnHost();
    SampleSegments();
    HostText("/interactions/");
    SampleHost();
    DirectoryBase(Scheme, Authority, "interactions");
  }

  /** Resolving a sample description resolves each of its interactions in place. */
  lemma ResolveSampleDescription(name: string, base: string, written: seq<Interaction>, resolved: seq<Interaction>)
    requires Uri.IsAbsolute(base) && |written| == |resolved|
    requires forall i :: 0 <= i < |written| ==> ResolveInteraction(Some(base), written[i]) == Ok(resolved[i])
    ensures ResolveDescription(SampleDescription(name, Some(base), written))
         == Ok(SampleDescription(name, Some(base), resolved))
  {
    var r := ResolveDescription(SampleDescription(name, Some(base), written));
    assert r.Ok?;
    assert r.value.interactions == resolved;
  }

  /** A sample document whose interaction objects serialize well-formed interactions has their structure. */
  lemma SampleStructure(name: string, base: Option<string>, ias: seq<Interaction>, objs: seq<Json>)
    requires |objs| == |ias|
    requires forall i :: 0 <= i < |ias| ==> objs[i] == SerializeInteraction(ias[i]) && WellFormedInteraction(ias[i])
    ensures ParseStructure(SampleDocument(name, base, objs)) == Ok(SampleDescription(name, base, ias))
  {
    SerializeSampleDescription(name, base, ias, objs);
    ParseStructureSerialize(SampleDescription(name, base, ias));
  }

  /** The structure of the third sample, with its hrefs as written. */
  lemma StructureOfSample3()
    ensures ParseStructure(Sample3) == Ok(Written3)
  {
    var objs := Sample3.members["interaction"].items;
    var ias := Written3.interactions;
    forall i | 0 <= i < 3 ensures objs[i] == SerializeInteraction(ias[i]) && WellFormedInteraction(ias[i]) {
      if i == 0 {
        SerializeSampleProperty("temperature", true, "temp");
        SamplePropertyWellFormed("temperature", true, "temp");
      } else if i == 1 {
        SerializeSampleProperty("temperature2", false, "./temp");
        SamplePropertyWellFormed("temperature2", false, "./temp");
      } else {
        SerializeSampleProperty("humidity", false, "/humid");
        SamplePropertyWellFormed("humidity", false, "/humid");
      }
    }
    SampleStructure("MyTemperatureThing3", Some(Base), ias, objs);
  }

  /** Each interaction of the third sample resolves to the one the test expects. */
  lemma ResolvedTemperature()
    ensures ResolveInteraction(Some(Base), Written3.interactions[0]) == Ok(Description3.interactions[0])
  {
    ResolveTemp();
    ResolveSampleProperty(Some(Base), "temperature", true, "temp", InteractionsTemp);
  }

  lemma ResolvedTemperature2()
    ensures ResolveInteraction(Some(Base), Written3.interactions[1]) == Ok(Description3.interactions[1])
  {
    ResolveDotTemp();
    ResolveSampleProperty(Some(Base), "temperature2", false, "./temp", InteractionsTemp);
  }

  lemma ResolvedHumidity()
    ensures ResolveInteraction(Some(Base), Written3.interactions[2]) == Ok(Description3.interactions[2])
  {
    ResolveHumid();
    ResolveSampleProperty(Some(Base), "humidity", false, "/humid", Humid);
  }

  /**
    The third sample: three properties whose hrefs "temp", "./temp" and
    "/humid" are resolved against the base.
   */
  lemma ParseSample3()
    ensures Parse(Sample3) == Ok(Description3)
  {
    assert ParseStructure(Sample3) == Ok(Written3) by {
      StructureOfSample3();
    }
    assert ResolveDescription(Written3) == Ok(Description3) by {
      ResolveSample3();
    }
  }

  /** The addresses of the third sample, as written, resolve to the ones the test expects. */
  lemma ResolveSample3()
    ensures ResolveDescription(Written3) == Ok(Description3)
  {
    var written, resolved := Written3.interactions, Description3.interactions;
    forall i | 0 <= i < |written| ensures ResolveInteraction(Some(Base), written[i]) == Ok(resolved[i]) {
      if i == 0 {
        ResolvedTemperature();
      } else if i == 1 {
        ResolvedTemperature2();
      } else {
        ResolvedHumidity();
      }
    }
    BaseIsAbsolute();
    ResolveSampleDescription("MyTemperatureThing3", Base, written, resolved);
  }

  /** Serializing the parsed third sample writes the resolved href of its first property. */
  lemma Sample3ComesBackResolved()
    ensures Serialize(Description3) != Sample3
  {
    var ia := Description3.interactions[0];
    var d := Serialize(Description3);
    assert d.members["interaction"].items[0] == SerializeInteraction(ia);
    SerializeSampleProperty("temperature", true, InteractionsTemp);
    var written := Sample3.members["interaction"].items[0];
    assert written.members["link"].items[0].members["href"] == JStr("temp");
    assert |InteractionsTemp| != |"temp"|;
  }

  /**
    The round trip of the test: the first two samples come back from
    serialization as the same JSON value. The third does not, since its hrefs
    come back resolved, but reading it again gives the same description.
   */
  lemma RoundTrips()
    ensures Parse(Sample1).Ok? && Serialize(Parse(Sample1).value) == Sample1
    ensures Parse(Sample2).Ok? && Serialize(Parse(Sample2).value) == Sample2
    ensures Parse(Sample3).Ok? && Serialize(Parse(Sample3).value) != Sample3
    ensures Parse(Serialize(Parse(Sample3).value)) == Parse(Sample3)
  {
    ParseSample1();
    ParseSample2();
    ParseSample3();
    Sample3ComesBackResolved();
    ReparseIsStable(Sample3);
  }

  // ---------------------------------------------------------------------------
  // The comparisons of the round-trip test

  /**
    The three comparisons of the round-trip test as written: each one
    compares the first sample's output with the first sample, so what the
    second and third samples serialize to is never looked at.
   */
  predicate RoundTripChecksAsWritten(out1: Json, out2: Json, out3: Json)
  {
    && out1 == Sample1
    && out1 == Sample1
    && out1 == Sample1
  }

  /**
    The comparisons the test evidently means: each sample against its own
    output, the third one as the description it reads back to, since its
    hrefs are written back resolved.
   */
  predicate RoundTripChecks(out1: Json, out2: Json, out3: Json)
  {
    && out1 == Sample1
    && out2 == Sample2
    && Parse(out3) == Parse(Sample3)
  }

  /** The test as written passes even when the second and third samples serialize to nothing useful. */
  lemma AsWrittenChecksOnlySample1()
    ensures RoundTripChecksAsWritten(Serialize(Description1), JNull, JNull)
    ensures !RoundTripChecks(Serialize(Description1), JNull, JNull)
  {
    ParseSample1();
  }

  /** The intended comparisons hold for what the three samples serialize to. */
  lemma IntendedRoundTrips()
    ensures Parse(Sample1).Ok? && Parse(Sample2).Ok? && Parse(Sample3).Ok?
    ensures RoundTripChecks(Serialize(Parse(Sample1).value), Serialize(Parse(Sample2).value),
                            Serialize(Parse(Sample3).value))
  {
    RoundTrips();
  }
}
