/**
  The Thing Description model and its parse/serialize contract.

  A Thing Description names a thing, lists its semantic context and type, may
  carry a base URI, and lists its interactions in document order; each
  interaction is a property, an action or an event, reached through an ordered,
  non-empty list of links. Parsing takes an already-decoded JSON document,
  reads its structure (mapping the interaction kind through the fixed "@type"
  vocabulary and carrying the `writable` flag of properties through), then
  resolves every link's href against the base, so that every stored href is
  absolute. Serializing writes the same field vocabulary back.
 */
module ThingDescriptions {
  import opened Wrappers
  import opened Json
  import Uri

  datatype InteractionPattern = Property | Action | Event

  datatype InteractionLink = InteractionLink(href: string, mediaType: Option<string>)

  /** `outputData` is kept as the document gave it; the model does not interpret it. */
  datatype Interaction = Interaction(
    name: string,
    pattern: InteractionPattern,
    semanticTypes: seq<string>,
    writable: bool,
    outputData: Option<Json>,
    links: seq<InteractionLink>)

  datatype ThingDescription = ThingDescription(
    name: string,
    context: seq<Json>,
    semanticType: Option<string>,
    base: Option<string>,
    interactions: seq<Interaction>)

  /** A required field missing or of the wrong kind, or an href (or base) that cannot be made absolute. */
  datatype ParseError = MalformedDocument(field: string) | InvalidLink(href: string)

  // ---------------------------------------------------------------------------
  // The interaction vocabulary

  function PatternWord(p: InteractionPattern): string
  {
    match p
    case Property => "Property"
    case Action => "Action"
    case Event => "Event"
  }

  /** The interaction kind a type word names; any other word names none. */
  function PatternOf(word: string): (p: Option<InteractionPattern>)
    ensures p.Some? ==> PatternWord(p.value) == word
    ensures p.None? ==> word != "Property" && word != "Action" && word != "Event"
  {
    if word == "Property" then Some(Property)
    else if word == "Action" then Some(Action)
    else if word == "Event" then Some(Event)
    else None
  }

  /** The vocabulary is a bijection between the three kinds and their words. */
  lemma PatternWordRoundTrip(p: InteractionPattern)
    ensures PatternOf(PatternWord(p)) == Some(p)
  {
    match p
    case Property =>
    case Action =>
    case Event =>
  }

  // ---------------------------------------------------------------------------
  // Well-formed models

  /** What reading the structure guarantees about one interaction. */
  predicate WellFormedInteraction(ia: Interaction)
  {
    && ia.semanticTypes != []
    && PatternOf(ia.semanticTypes[0]) == Some(ia.pattern)
    && (ia.pattern != Property ==> !ia.writable)
    && ia.links != []
  }

  predicate AllAbsolute(links: seq<InteractionLink>)
  {
    forall i :: 0 <= i < |links| ==> Uri.IsAbsolute(links[i].href)
  }

  /** The structural guarantees, without any claim about the addresses. */
  predicate WellStructured(td: ThingDescription)
  {
    forall i :: 0 <= i < |td.interactions| ==> WellFormedInteraction(td.interactions[i])
  }

  /** What parsing guarantees: the structure, an absolute base and absolute hrefs only. */
  predicate WellFormed(td: ThingDescription)
  {
    && WellStructured(td)
    && (td.base.Some? ==> Uri.IsAbsolute(td.base.value))
    && (forall i :: 0 <= i < |td.interactions| ==> AllAbsolute(td.interactions[i].links))
  }

  // ---------------------------------------------------------------------------
  // Reading the structure

  /** A list of JSON strings, or None if some item is not a string. */
  function ParseStrings(items: seq<Json>): (r: Option<seq<string>>)
    ensures r.Some? <==> forall i :: 0 <= i < |items| ==> items[i].JStr?
    ensures r.Some? ==> |r.value| == |items| && forall i :: 0 <= i < |items| ==> items[i] == JStr(r.value[i])
  {
    if items == [] then Some([])
    else if !items[0].JStr? then None
    else
      var rest := ParseStrings(items[1..]);
      if rest.None? then
        assert !items[1..][FindNonString(items[1..])].JStr?;
        None
      else Some([items[0].s] + rest.value)
  }

  /** The index of an item that is not a string, for a list that has one. */
  function FindNonString(items: seq<Json>): (i: nat)
    requires exists k :: 0 <= k < |items| && !items[k].JStr?
    ensures i < |items| && !items[i].JStr?
  {
    if !items[0].JStr? then 0
    else
      assert exists k :: 0 <= k < |items[1..]| && !items[1..][k].JStr? by {
        var k :| 0 <= k < |items| && !items[k].JStr?;
        assert items[1..][k - 1] == items[k];
      }
      1 + FindNonString(items[1..])
  }

  /** One link object, with its href as written; the media type is optional. */
  function ParseLink(j: Json): (r: Result<InteractionLink, ParseError>)
    ensures r.Ok? ==> j.JObj? && Member(j.members, "href") == Some(JStr(r.value.href))
    ensures r.Ok? ==> r.value.mediaType.Some? == ("mediaType" in j.members)
    ensures r.Ok? && r.value.mediaType.Some? ==> j.members["mediaType"] == JStr(r.value.mediaType.value)
    ensures r.Ok? <==> && j.JObj? && "href" in j.members && j.members["href"].JStr?
                       && ("mediaType" in j.members ==> j.members["mediaType"].JStr?)
  {
    if !j.JObj? then Err(MalformedDocument("link"))
    else
      var href := Member(j.members, "href");
      var mediaType := Member(j.members, "mediaType");
      if href.None? || !href.value.JStr? then Err(MalformedDocument("href"))
      else if mediaType.Some? && !mediaType.value.JStr? then Err(MalformedDocument("mediaType"))
      else Ok(InteractionLink(href.value.s, if mediaType.Some? then Some(mediaType.value.s) else None))
  }

  /** One interaction object, with its hrefs as written. */
  function ParseInteraction(j: Json): (r: Result<Interaction, ParseError>)
    ensures r.Ok? ==> WellFormedInteraction(r.value)
    ensures r.Ok? ==> j.JObj? && Member(j.members, "name") == Some(JStr(r.value.name))
    ensures r.Ok? ==> r.value.writable ==
                      (r.value.pattern == Property && Member(j.members, "writable") == Some(JBool(true)))
    ensures r.Ok? ==> r.value.outputData == Member(j.members, "outputData")
    ensures r.Ok? ==> "@type" in j.members && ParseStrings(AsList(j.members["@type"])) == Some(r.value.semanticTypes)
    ensures r.Ok? ==> && "link" in j.members && j.members["link"].JArr?
                      && |r.value.links| == |j.members["link"].items|
                      && forall k :: 0 <= k < |r.value.links| ==> ParseLink(j.members["link"].items[k]) == Ok(r.value.links[k])
  {
    if !j.JObj? then Err(MalformedDocument("interaction"))
    else
      var m := j.members;
      var name := Member(m, "name");
      var types := if "@type" in m then ParseStrings(AsList(m["@type"])) else None;
      var writable := Member(m, "writable");
      var links := Member(m, "link");
      if name.None? || !name.value.JStr? then Err(MalformedDocument("name"))
      else if types.None? || types.value == [] || PatternOf(types.value[0]).None? then
        Err(MalformedDocument("@type"))
      else
        var pattern := PatternOf(types.value[0]).value;
        if pattern == Property && writable.Some? && !writable.value.JBool? then
          Err(MalformedDocument("writable"))
        else if links.None? || !links.value.JArr? || links.value.items == [] then
          Err(MalformedDocument("link"))
        else
          match Traverse(ParseLink, links.value.items)
          case Err(e) => Err(e)
          case Ok(ls) =>
            var isWritable := pattern == Property && writable.Some? && writable.value.b;
            Ok(Interaction(name.value.s, pattern, types.value, isWritable, Member(m, "outputData"), ls))
  }

  /** The first entry of the root "@type", when it is a string. */
  function RootType(m: map<string, Json>): Option<string>
  {
    var types := if "@type" in m then AsList(m["@type"]) else [];
    if types != [] && types[0].JStr? then Some(types[0].s) else None
  }

  /**
    The structure of a decoded document, with base and hrefs as written. The
    name is required; a missing "@context" is an empty context and a missing
    "interaction" field an empty list.
   */
  function ParseStructure(doc: Json): (r: Result<ThingDescription, ParseError>)
    ensures r.Ok? ==> WellStructured(r.value)
    ensures r.Ok? ==> doc.JObj? && Member(doc.members, "name") == Some(JStr(r.value.name))
    ensures r.Ok? ==> (r.value.base.Some? <==> "base" in doc.members)
    ensures r.Ok? && r.value.base.Some? ==> doc.members["base"] == JStr(r.value.base.value)
    ensures r.Ok? ==> r.value.context == (if "@context" in doc.members then AsList(doc.members["@context"]) else [])
    ensures r.Ok? ==> r.value.semanticType == RootType(doc.members)
    ensures r.Ok? ==> var items := if "interaction" in doc.members then AsList(doc.members["interaction"]) else [];
                      && |r.value.interactions| == |items|
                      && forall i :: 0 <= i < |items| ==> ParseInteraction(items[i]) == Ok(r.value.interactions[i])
  {
    if !doc.JObj? then Err(MalformedDocument("document"))
    else
      var m := doc.members;
      var name := Member(m, "name");
      var base := Member(m, "base");
      var interactions := Member(m, "interaction");
      if name.None? || !name.value.JStr? then Err(MalformedDocument("name"))
      else if base.Some? && !base.value.JStr? then Err(MalformedDocument("base"))
      else if interactions.Some? && !interactions.value.JArr? then Err(MalformedDocument("interaction"))
      else
        var items := if interactions.Some? then interactions.value.items else [];
        match Traverse(ParseInteraction, items)
        case Err(e) => Err(e)
        case Ok(ias) =>
          var context := if "@context" in m then AsList(m["@context"]) else [];
          var baseUri := if base.Some? then Some(base.value.s) else None;
          Ok(ThingDescription(name.value.s, context, RootType(m), baseUri, ias))
  }

  // ---------------------------------------------------------------------------
  // Resolving the addresses

  /** A link with its href resolved against the base, or the href that cannot be resolved. */
  function ResolveLink(base: Option<string>, link: InteractionLink): (r: Result<InteractionLink, ParseError>)
    ensures r.Ok? <==> Uri.ResolveHref(base, link.href).Some?
    ensures r.Ok? ==> r.value.mediaType == link.mediaType && Uri.IsAbsolute(r.value.href)
    ensures r.Ok? ==> Some(r.value.href) == Uri.ResolveHref(base, link.href)
    ensures r.Err? ==> r.error == InvalidLink(link.href)
  {
    match Uri.ResolveHref(base, link.href)
    case None => Err(InvalidLink(link.href))
    case Some(address) => Ok(link.(href := address))
  }

  function ResolveInteraction(base: Option<string>, ia: Interaction): (r: Result<Interaction, ParseError>)
    ensures r.Ok? <==> forall k :: 0 <= k < |ia.links| ==> ResolveLink(base, ia.links[k]).Ok?
    ensures r.Ok? ==> r.value == ia.(links := r.value.links) && |r.value.links| == |ia.links|
    ensures r.Ok? ==> forall k :: 0 <= k < |ia.links| ==> ResolveLink(base, ia.links[k]) == Ok(r.value.links[k])
    ensures r.Ok? ==> AllAbsolute(r.value.links)
  {
    match Traverse(link => ResolveLink(base, link), ia.links)
    case Err(e) => Err(e)
    case Ok(ls) =>
      assert AllAbsolute(ls) by {
        forall i | 0 <= i < |ls| ensures Uri.IsAbsolute(ls[i].href) {
          assert ResolveLink(base, ia.links[i]).Ok?;
        }
      }
      Ok(ia.(links := ls))
  }

  /**
    Every href of the description resolved against its base (section 5.2 of
    RFC 3986). A base that is not an absolute URI, or an href that cannot be
    resolved, makes the document invalid.
   */
  function ResolveDescription(td: ThingDescription): (r: Result<ThingDescription, ParseError>)
    ensures r.Ok? ==> td.base.Some? ==> Uri.IsAbsolute(td.base.value)
    ensures r.Ok? <==> (td.base.Some? ==> Uri.IsAbsolute(td.base.value))
                       && forall i :: 0 <= i < |td.interactions| ==> ResolveInteraction(td.base, td.interactions[i]).Ok?
    ensures r.Ok? ==> r.value == td.(interactions := r.value.interactions)
    ensures r.Ok? ==> |r.value.interactions| == |td.interactions|
    ensures r.Ok? ==> forall i :: 0 <= i < |td.interactions| ==>
                        ResolveInteraction(td.base, td.interactions[i]) == Ok(r.value.interactions[i])
    ensures r.Ok? ==> forall i :: 0 <= i < |td.interactions| ==> AllAbsolute(r.value.interactions[i].links)
  {
    if td.base.Some? && !Uri.IsAbsolute(td.base.value) then Err(InvalidLink(td.base.value))
    else
      match Traverse(ia => ResolveInteraction(td.base, ia), td.interactions)
      case Err(e) => Err(e)
      case Ok(ias) =>
        assert forall i :: 0 <= i < |ias| ==> AllAbsolute(ias[i].links) by {
          forall i | 0 <= i < |ias| ensures AllAbsolute(ias[i].links) {
            assert ResolveInteraction(td.base, td.interactions[i]).Ok?;
          }
        }
        Ok(td.(interactions := ias))
  }

  /** A decoded document as a Thing Description: its structure, then its addresses. */
  function Parse(doc: Json): (r: Result<ThingDescription, ParseError>)
    ensures r.Ok? ==> WellFormed(r.value)
  {
    match ParseStructure(doc)
    case Err(e) => Err(e)
    case Ok(raw) =>
      var r := ResolveDescription(raw);
      if r.Ok? then
        assert WellStructured(r.value) by {
          forall i | 0 <= i < |r.value.interactions| ensures WellFormedInteraction(r.value.interactions[i]) {
            assert ResolveInteraction(raw.base, raw.interactions[i]).Ok?;
            assert WellFormedInteraction(raw.interactions[i]);
          }
        }
        r
      else r
  }

  /**
    The i-th interaction of a parsed description is the i-th interaction
    object of the document, read as it is written except that each of its
    links, kept in order, has its href resolved against the base.
   */
  lemma ParsedInteraction(doc: Json, i: nat)
    requires Parse(doc).Ok? && i < |Parse(doc).value.interactions|
    ensures doc.JObj? && "interaction" in doc.members && doc.members["interaction"].JArr?
    ensures var items := doc.members["interaction"].items;
      && |Parse(doc).value.interactions| == |items|
      && ParseInteraction(items[i]).Ok?
    ensures var td := Parse(doc).value;
      var raw := ParseInteraction(doc.members["interaction"].items[i]).value;
      var ia := td.interactions[i];
      && ia == raw.(links := ia.links)
      && |ia.links| == |raw.links|
      && forall k :: 0 <= k < |raw.links| ==>
           ia.links[k].mediaType == raw.links[k].mediaType
           && Some(ia.links[k].href) == Uri.ResolveHref(td.base, raw.links[k].href)
  {
    var structure := ParseStructure(doc).value;
    var td := Parse(doc).value;
    var items := doc.members["interaction"].items;
    assert structure.interactions[i] == ParseInteraction(items[i]).value;
    var raw := structure.interactions[i];
    assert ResolveInteraction(structure.base, raw) == Ok(td.interactions[i]);
    var ia := td.interactions[i];
    forall k | 0 <= k < |raw.links|
      ensures ia.links[k].mediaType == raw.links[k].mediaType
      ensures Some(ia.links[k].href) == Uri.ResolveHref(td.base, raw.links[k].href)
    {
      assert ResolveLink(td.base, raw.links[k]).Ok?;
    }
  }

  /**
    Without a base, parsing keeps every href exactly as the document writes
    it; a relative href is then an invalid link.
   */
  lemma NoBaseKeepsHrefs(doc: Json, i: nat, k: nat)
    requires Parse(doc).Ok? && i < |Parse(doc).value.interactions|
    requires doc.JObj? && "base" !in doc.members
    requires k < |Parse(doc).value.interactions[i].links|
    ensures var raw := ParseInteraction(doc.members["interaction"].items[i]).value;
      k < |raw.links| && Parse(doc).value.interactions[i].links[k] == raw.links[k]
  {
    ParsedInteraction(doc, i);
    var raw := ParseInteraction(doc.members["interaction"].items[i]).value;
    assert ParseStructure(doc).value.base.None?;
    var href := raw.links[k].href;
    assert Uri.ResolveHref(None, href) == Some(href);
  }

  // ---------------------------------------------------------------------------
  // Serializing

  function SerializeStrings(ss: seq<string>): (r: seq<Json>)
    ensures |r| == |ss| && forall i :: 0 <= i < |ss| ==> r[i] == JStr(ss[i])
  {
    seq(|ss|, i requires 0 <= i < |ss| => JStr(ss[i]))
  }

  function SerializeLink(link: InteractionLink): Json
  {
    var media := if link.mediaType.Some? then map["mediaType" := JStr(link.mediaType.value)] else map[];
    JObj(map["href" := JStr(link.href)] + media)
  }

  function SerializeLinks(links: seq<InteractionLink>): (r: seq<Json>)
    ensures |r| == |links| && forall i :: 0 <= i < |links| ==> r[i] == SerializeLink(links[i])
  {
    seq(|links|, i requires 0 <= i < |links| => SerializeLink(links[i]))
  }

  function SerializeInteraction(ia: Interaction): Json
  {
    var writable := if ia.pattern == Property then map["writable" := JBool(ia.writable)] else map[];
    var output := if ia.outputData.Some? then map["outputData" := ia.outputData.value] else map[];
    JObj(map[
      "@type" := JArr(SerializeStrings(ia.semanticTypes)),
      "name" := JStr(ia.name),
      "link" := JArr(SerializeLinks(ia.links))
    ] + writable + output)
  }

  function SerializeInteractions(ias: seq<Interaction>): (r: seq<Json>)
    ensures |r| == |ias| && forall i :: 0 <= i < |ias| ==> r[i] == SerializeInteraction(ias[i])
  {
    seq(|ias|, i requires 0 <= i < |ias| => SerializeInteraction(ias[i]))
  }

  /** The document a description stands for, in the field vocabulary `Parse` reads. */
  function Serialize(td: ThingDescription): (doc: Json)
    ensures doc.JObj?
    ensures doc.members.Keys == {"@context", "name", "interaction"}
                                + (if td.semanticType.Some? then {"@type"} else {})
                                + (if td.base.Some? then {"base"} else {})
    ensures |AsList(doc.members["interaction"])| == |td.interactions|
  {
    var rootType := if td.semanticType.Some? then map["@type" := JArr([JStr(td.semanticType.value)])] else map[];
    var base := if td.base.Some? then map["base" := JStr(td.base.value)] else map[];
    JObj(map[
      "@context" := JArr(td.context),
      "name" := JStr(td.name),
      "interaction" := JArr(SerializeInteractions(td.interactions))
    ] + rootType + base)
  }

  // ---------------------------------------------------------------------------
  // Round trips

  lemma ParseSerializeLink(link: InteractionLink)
    ensures ParseLink(SerializeLink(link)) == Ok(link)
  {
    var j := SerializeLink(link);
    assert Member(j.members, "href") == Some(JStr(link.href));
  }

  /** The members an interaction object needs for `ParseInteraction` to give back `ia`. */
  lemma ParseInteractionOf(m: map<string, Json>, linkItems: seq<Json>, ia: Interaction)
    requires WellFormedInteraction(ia)
    requires Member(m, "name") == Some(JStr(ia.name))
    requires "@type" in m && ParseStrings(AsList(m["@type"])) == Some(ia.semanticTypes)
    requires Member(m, "writable") == if ia.pattern == Property then Some(JBool(ia.writable)) else None
    requires Member(m, "link") == Some(JArr(linkItems)) && Traverse(ParseLink, linkItems) == Ok(ia.links)
    requires Member(m, "outputData") == ia.outputData
    ensures ParseInteraction(JObj(m)) == Ok(ia)
  {
  }

  lemma ParseSerializeInteraction(ia: Interaction)
    requires WellFormedInteraction(ia)
    ensures ParseInteraction(SerializeInteraction(ia)) == Ok(ia)
  {
    var linkItems := SerializeLinks(ia.links);
    SerializedInteractionMembers(ia, linkItems);
    ParseSerializeLinks(ia.links, linkItems);
    ParseInteractionOf(SerializeInteraction(ia).members, linkItems, ia);
  }

  /** The members of a serialized interaction, as `ParseInteractionOf` reads them. */
  lemma SerializedInteractionMembers(ia: Interaction, linkItems: seq<Json>)
    requires linkItems == SerializeLinks(ia.links)
    ensures var m := SerializeInteraction(ia).members;
      && Member(m, "name") == Some(JStr(ia.name))
      && "@type" in m && ParseStrings(AsList(m["@type"])) == Some(ia.semanticTypes)
      && Member(m, "writable") == (if ia.pattern == Property then Some(JBool(ia.writable)) else None)
      && Member(m, "link") == Some(JArr(linkItems))
      && Member(m, "outputData") == ia.outputData
  {
    var m := SerializeInteraction(ia).members;
    var items := SerializeStrings(ia.semanticTypes);
    assert m["@type"] == JArr(items);
    assert ParseStrings(items) == Some(ia.semanticTypes) by {
      var r := ParseStrings(items);
      assert r.Some?;
      assert r.value == ia.semanticTypes;
    }
    assert Member(m, "name") == Some(JStr(ia.name));
    assert Member(m, "link") == Some(JArr(linkItems));
    assert Member(m, "writable") == if ia.pattern == Property then Some(JBool(ia.writable)) else None;
  }

  /** Reading serialized links gives them back, in order. */
  lemma ParseSerializeLinks(links: seq<InteractionLink>, linkItems: seq<Json>)
    requires linkItems == SerializeLinks(links)
    ensures Traverse(ParseLink, linkItems) == Ok(links)
  {
    forall i | 0 <= i < |links| ensures ParseLink(linkItems[i]) == Ok(links[i]) {
      ParseSerializeLink(links[i]);
    }
    var r := Traverse(ParseLink, linkItems);
    assert r.Ok?;
    assert r.value == links;
  }

  /** The members a document needs for `ParseStructure` to give back `td`. */
  lemma ParseStructureOf(m: map<string, Json>, items: seq<Json>, td: ThingDescription)
    requires Member(m, "name") == Some(JStr(td.name))
    requires Member(m, "base") == if td.base.Some? then Some(JStr(td.base.value)) else None
    requires Member(m, "interaction") == Some(JArr(items)) && Traverse(ParseInteraction, items) == Ok(td.interactions)
    requires Member(m, "@context") == Some(JArr(td.context))
    requires RootType(m) == td.semanticType
    ensures ParseStructure(JObj(m)) == Ok(td)
  {
  }

  lemma ParseSerializeInteractions(ias: seq<Interaction>, items: seq<Json>)
    requires forall i :: 0 <= i < |ias| ==> WellFormedInteraction(ias[i])
    requires |items| == |ias| && forall i :: 0 <= i < |ias| ==> items[i] == SerializeInteraction(ias[i])
    ensures Traverse(ParseInteraction, items) == Ok(ias)
  {
    forall i | 0 <= i < |items| ensures ParseInteraction(items[i]) == Ok(ias[i]) {
      ParseSerializeInteraction(ias[i]);
    }
    var r := Traverse(ParseInteraction, items);
    assert r.Ok?;
    assert r.value == ias;
  }

  /** The members of a serialized description, as `ParseStructureOf` reads them. */
  lemma SerializedMembers(td: ThingDescription, items: seq<Json>)
    requires items == SerializeInteractions(td.interactions)
    ensures var m := Serialize(td).members;
      && Member(m, "name") == Some(JStr(td.name))
      && Member(m, "base") == (if td.base.Some? then Some(JStr(td.base.value)) else None)
      && Member(m, "interaction") == Some(JArr(items))
      && Member(m, "@context") == Some(JArr(td.context))
      && RootType(m) == td.semanticType
  {
    var m := Serialize(td).members;
    assert Member(m, "name") == Some(JStr(td.name));
    assert Member(m, "base") == if td.base.Some? then Some(JStr(td.base.value)) else None;
    assert Member(m, "interaction") == Some(JArr(items));
  }

  /** Reading the structure of a serialized description gives it back, hrefs as they are. */
  lemma ParseStructureSerialize(td: ThingDescription)
    requires WellStructured(td)
    ensures ParseStructure(Serialize(td)) == Ok(td)
  {
    var items := SerializeInteractions(td.interactions);
    ParseSerializeInteractions(td.interactions, items);
    SerializedMembers(td, items);
    ParseStructureOf(Serialize(td).members, items, td);
  }

  /** Resolving a description whose base and hrefs are already absolute changes nothing. */
  lemma ResolveAbsolute(td: ThingDescription)
    requires WellFormed(td)
    ensures ResolveDescription(td) == Ok(td)
  {
    forall i | 0 <= i < |td.interactions|
      ensures ResolveInteraction(td.base, td.interactions[i]) == Ok(td.interactions[i])
    {
      var ia := td.interactions[i];
      forall k | 0 <= k < |ia.links| ensures ResolveLink(td.base, ia.links[k]) == Ok(ia.links[k]) {
        assert Uri.IsAbsolute(ia.links[k].href);
      }
      var r := Traverse(link => ResolveLink(td.base, link), ia.links);
      assert r.Ok? && r.value == ia.links;
    }
    var r := Traverse(ia => ResolveInteraction(td.base, ia), td.interactions);
    assert r.Ok? && r.value == td.interactions;
  }

  /**
    Serializing a well-formed description and parsing the result gives the
    description back: names, order, interaction kinds, writable flags, media
    types and (absolute) hrefs all survive.
   */
  lemma ParseSerialize(td: ThingDescription)
    requires WellFormed(td)
    ensures Parse(Serialize(td)) == Ok(td)
  {
    ParseStructureSerialize(td);
    ResolveAbsolute(td);
  }

  /**
    Whatever document a description was parsed from, serializing it and
    parsing again yields the same description: the resolved form is stable,
    independently of how the original document spelled its hrefs.
   */
  lemma ReparseIsStable(doc: Json)
    requires Parse(doc).Ok?
    ensures Parse(Serialize(Parse(doc).value)) == Parse(doc)
  {
    ParseSerialize(Parse(doc).value);
  }
}
