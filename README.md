# Consumed things and Thing Description parsing, in Dafny

This project models two parts of node-wot, the Web of Things runtime:

- **Dispatch.** A `ConsumedThing` is the consumer-side proxy for a remote thing. It finds an interaction of its Thing Description by name and kind. It then picks a protocol client: first one already cached for the scheme of one of the interaction's links, else one from the servient's client registry, which is then cached. Finally it delegates exactly one read, write or invoke on that link's address.
- **The parse contract.** This is the contract the Thing Description parse test pins down, with its three sample documents. Parsing reads the fixed field vocabulary ("@context", "@type", "name", "base", "interaction", "link", "href", "mediaType", "writable", "outputData"). It maps the interaction kind through the "@type" words "Property", "Action" and "Event", and resolves every relative href against the document's base by section 5.2 of RFC 3986. Serializing writes the same vocabulary back.

Modules:

- `Wrappers` (`wrappers.dfy`): `Option` and `Result`, and an in-order `Traverse` that stops at the first error.
- `Json` (`json.dfy`): an already-decoded JSON value. Objects are maps, so `==` ignores member order as the test's `deep.equal` does. Numbers keep their literal text and compare by spelling: `1` and `1.0` differ here, though `deep.equal` treats them as the same number. The samples contain no numbers.
- `Uri` (`uri.dfy`): URI references as in RFC 3986.
  - Splitting follows the regular expression of Appendix B; recomposition follows section 5.3.
  - Resolution implements section 5.2.2, with merge (section 5.2.3) and remove_dot_segments (section 5.2.4).
  - `ExtractScheme` gives the scheme of an address.
- `ThingDescriptions` (`thing_descriptions.dfy`): the description datatypes, `Parse` (structure first, then address resolution), `Serialize`, and the round-trip lemmas.
- `TDParseTest` (`td_parse_test.dfy`): the three sample documents, the descriptions the test expects of them, and the test's round-trip comparisons.
- `ConsumedThings` (`consumed_thing.dfy`):
  - the client selection of `getClientFor` and the lookup of `findInteraction`, as functions over the cache;
  - the class `ConsumedThing`, whose `clients` field is the per-scheme cache its methods update.
- `ConsumedSample` (`consumed_sample.dfy`): the third sample, consumed through a servient serving "coap"; its three properties are read in turn.

Transport calls are not executed. A read, write or invoke is the `Request` value naming the client, the address and the payload.

## Model

| member | source | states |
|---|---|---|
| ConsumedThings.FindIndex | src/consumed-thing.ts:54 | Gives the first index whose element satisfies the predicate; None exactly when no element does. |
| ConsumedThings.Schemes | src/consumed-thing.ts:53 | One scheme per link, in link order, each being the scheme of that link's href. |
| ConsumedThings.MatchingStartsWithFirst | src/consumed-thing.ts:79-80 | The filter on kind and name is empty iff no interaction matches. Otherwise its head is the first matching interaction in document order. |
| ConsumedThings.MatchingKeepsMatches | src/consumed-thing.ts:79 | The filter (`Matching`): it keeps only interactions with that kind and name, and keeps every one of them. |
| ConsumedThings.FindInteraction | src/consumed-thing.ts:78-81 | None iff no interaction has that name and kind. Otherwise the first one in document order that has both. |
| ConsumedThings.FindSameLinks | src/consumed-thing.ts:79-80 | The lookup reads only names and kinds: two lists agreeing on names, kinds and links find interactions with the same links. |
| ConsumedThings.PropertyIsNotAnAction | src/consumed-thing.ts:135-137 | A name only properties carry is not found when an action is looked up. |
| ConsumedThings.Servient.GetClientFor | src/consumed-thing.ts:63-66 | The registry yields a client only for a scheme it has a factory for, and that factory's client. |
| ConsumedThings.Servient.HasClientFor | src/consumed-thing.ts:63 | The registry reports a scheme as served iff it holds a factory entry for it, whether or not that factory yields a client. |
| ConsumedThings.Choose | src/consumed-thing.ts:48-76 | The chosen index is always the index of one of the links. |
| ConsumedThings.ChooseSelects | src/consumed-thing.ts:49-75 | The selection, case by case. No links gives NoLinks. Otherwise the first cached scheme wins, with its cached client and the cache unchanged. Otherwise the first registered scheme wins, and its client is stored under it (or ClientUnavailable if the registry yields none). With no cached and no registered scheme, it fails with the cache unchanged. |
| ConsumedThings.CacheOnlyGrows | src/consumed-thing.ts:67-69 | Every cache entry survives unchanged. A failure adds nothing. A success adds at most the chosen scheme, mapped to the chosen client. |
| ConsumedThings.PrefersCachedClient | src/consumed-thing.ts:54-60 | A cached scheme wins over an uncached one listed before it, even if the registry serves the earlier one. |
| ConsumedThings.ClientFor | src/consumed-thing.ts:48-76 | The returned client and cache are those of the scheme-level selection, and the link is the one at the chosen index. |
| ConsumedThings.Route | src/consumed-thing.ts:90-94 | An unknown name or kind is InteractionNotFound with the cache unchanged. Otherwise the client choice for the found interaction's links. |
| ConsumedThings.RouteIgnoresWritable | src/consumed-thing.ts:113-122 | Relabelling any interaction's writable flag changes neither where a write goes nor whether it goes at all. |
| ConsumedThings.ConsumedThing.constructor | src/consumed-thing.ts:38-45 | The name is the description's name, and the client cache starts empty. |
| ConsumedThings.ConsumedThing.GetClientFor | src/consumed-thing.ts:48-76 | The result and the new cache are exactly those of ClientFor on the old cache: a cached client for the first cached scheme, else a fresh client for the first registered scheme, stored in the cache. |
| ConsumedThings.ConsumedThing.Dispatch | src/consumed-thing.ts:90-94 | The result and the new cache are those of Route on the old cache. |
| ConsumedThings.ConsumedThing.GetProperty | src/consumed-thing.ts:87-103 | Exactly one read, on the href of the chosen link with the chosen client. Otherwise the lookup or selection error. The cache becomes the route's cache. |
| ConsumedThings.ConsumedThing.SetProperty | src/consumed-thing.ts:110-126 | Exactly one write of the new value on the chosen link's href, or the lookup or selection error. The writable flag is not consulted. A value the buffer constructor refuses rejects with PayloadRejected, after the client has been chosen and cached. |
| ConsumedThings.ConsumedThing.InvokeAction | src/consumed-thing.ts:132-149 | Exactly one invoke with the parameter on the chosen link's href, found among actions only, or the error. An omitted parameter, like any value the buffer constructor refuses, rejects with PayloadRejected after the client has been chosen and cached. |
| ConsumedThings.BufferAccepts | src/consumed-thing.ts:122 | Which values the buffer constructor wrapping a payload accepts: strings, non-negative numbers, arrays and array-like objects. It refuses a missing value, null, booleans and other objects. |
| ConsumedThings.ConsumedThing.GetDescription | src/consumed-thing.ts:158-160 | The document returned for a well-formed (e.g. parsed) description parses back to that description. |
| ConsumedSample.FindSampleProperties | src/consumed-thing.ts:78-81 | Each property of the third sample is found under its own name. "temperature" is not found as an action. |
| ConsumedSample.ChooseCoap | src/consumed-thing.ts:54-71 | A "coap" link gets the registry's client. With an empty cache that client is then cached; with it already cached, the cache is kept. |
| ConsumedSample.SampleRoutes | src/consumed-thing.ts:87-94 | Each of the three property reads routes to the "coap" client and that property's own resolved link, whether or not the client is cached yet. |
| ConsumedSample.ReadSampleProperties | src/consumed-thing.ts:87-103 | Three reads in turn issue reads on ".../interactions/temp" twice and ".../humid", all with the one client, which ends up cached under "coap". |
| ThingDescriptions.PatternOf | packages/node-wot-td-tools/test/TDParseTest.ts:123 | A recognised type word is the word of its kind; any other word is none of "Property", "Action", "Event". |
| ThingDescriptions.PatternWordRoundTrip | packages/node-wot-td-tools/test/TDParseTest.ts:121-123 | Every kind's word maps back to that kind. |
| ThingDescriptions.ParseStrings | packages/node-wot-td-tools/test/TDParseTest.ts:121 | Succeeds iff every item is a string, and then gives those strings in order. |
| ThingDescriptions.ParseLink | packages/node-wot-td-tools/test/TDParseTest.ts:126-128 | Succeeds iff the item is an object with a string "href" and, if present, a string "mediaType". The href is the object's "href". The media type is present iff the object has one, and then it is the object's "mediaType". |
| ThingDescriptions.ParseInteraction | packages/node-wot-td-tools/test/TDParseTest.ts:120-128 | A parsed interaction is well formed: its first type word names its kind, it has at least one link, and only a property can be writable. Its semantic types are the object's "@type" strings, in order. Its links are the object's "link" items, each read by ParseLink, in order. Its name and outputData are the object's. It is writable iff it is a property whose "writable" is true. |
| ThingDescriptions.ParseStructure | packages/node-wot-td-tools/test/TDParseTest.ts:115-120 | The description has the document's name. Its context is the document's "@context" list (empty when absent). Its semantic type is the first root "@type" entry. It has a base iff the document has one, and then the document's base. Its interactions are the document's "interaction" items, each read by ParseInteraction, in order, so every one is well formed. |
| ThingDescriptions.Serialize | src/consumed-thing.ts:159 | The document has exactly the fields "@context", "name" and "interaction", plus "@type" and "base" when the description has them, with one interaction object per interaction. ParseSerialize proves it reads back to the description. |
| ThingDescriptions.ResolveLink | packages/node-wot-td-tools/test/TDParseTest.ts:164 | Succeeds iff the href resolves. The resolved href is absolute and is the resolution; the media type is kept. Otherwise InvalidLink names the href. |
| ThingDescriptions.ResolveInteraction | packages/node-wot-td-tools/test/TDParseTest.ts:162-164 | Succeeds iff every link resolves. Only the links change, each becoming its own resolution, in order. |
| ThingDescriptions.ResolveDescription | packages/node-wot-td-tools/test/TDParseTest.ts:155-180 | Succeeds iff the base (if any) is absolute and every interaction resolves. Only the interactions change, each becoming its own resolution, all hrefs absolute. |
| ThingDescriptions.Parse | packages/node-wot-td-tools/test/TDParseTest.ts:149-181 | A parsed description is well formed, with an absolute base (if any) and absolute hrefs only. |
| ThingDescriptions.ParsedInteraction | packages/node-wot-td-tools/test/TDParseTest.ts:157-180 | The i-th parsed interaction is the i-th interaction object as written, except that each link keeps its position and media type and its href is resolved against the base. |
| ThingDescriptions.NoBaseKeepsHrefs | packages/node-wot-td-tools/test/TDParseTest.ts:118-128 | Without a base, every parsed link is exactly the link as written. |
| ThingDescriptions.ParseSerializeLink | packages/node-wot-td-tools/test/TDParseTest.ts:183-190 | Reading a serialized link gives the link back. |
| ThingDescriptions.ParseSerializeInteraction | packages/node-wot-td-tools/test/TDParseTest.ts:183-190 | Reading a serialized well-formed interaction gives it back. |
| ThingDescriptions.ParseStructureSerialize | packages/node-wot-td-tools/test/TDParseTest.ts:183-190 | Reading the structure of a serialized description gives it back, hrefs as they are. |
| ThingDescriptions.ResolveAbsolute | packages/node-wot-td-tools/test/TDParseTest.ts:128 | Resolving a description whose base and hrefs are already absolute changes nothing. |
| ThingDescriptions.ParseSerialize | packages/node-wot-td-tools/test/TDParseTest.ts:183-190 | Serializing a well-formed description and parsing the result gives the description back. |
| ThingDescriptions.ReparseIsStable | packages/node-wot-td-tools/test/TDParseTest.ts:200-201 | For any document that parses, parsing its serialization gives the same description. |
| Uri.RecomposeParse | packages/node-wot-td-tools/test/TDParseTest.ts:74 | Splitting any string into components and recomposing them gives the string back. |
| Uri.ParseWellFormed | packages/node-wot-td-tools/test/TDParseTest.ts:74 | Every string splits into well-formed components. |
| Uri.ParseRecompose | packages/node-wot-td-tools/test/TDParseTest.ts:74 | Well-formed components recompose to a string that splits back into them. |
| Uri.ResolveHref | packages/node-wot-td-tools/test/TDParseTest.ts:155-180 | An absolute href is kept as written. A relative one resolves iff there is an absolute base, and then to an absolute URI with the base's scheme. When the href or the base has an authority, the result splits into exactly the components of the section 5.2.2 transform. So an href with no authority keeps the base's authority: "/x" gets the path "/x" with dot segments removed, and "x" gets the base directory followed by "x", with dot segments removed. |
| Uri.ResolvedWellFormed | packages/node-wot-td-tools/test/TDParseTest.ts:155-180 | When the reference or the base has an authority, the section 5.2.2 transform of well-formed components is well formed: its path is empty or absolute, and no component gains a character that ends it early. |
| Uri.RemoveDotsKeepsOut | packages/node-wot-td-tools/test/TDParseTest.ts:164-180 | remove_dot_segments introduces no character other than '/' that its input lacks. |
| Uri.RemoveDotsRooted | packages/node-wot-td-tools/test/TDParseTest.ts:164-180 | remove_dot_segments keeps an absolute path absolute (or empty). |
| Uri.DotSegmentNeutral | packages/node-wot-td-tools/test/TDParseTest.ts:92 | A "/./" inside a path is removed exactly like a plain "/" (rule B of section 5.2.4). |
| Uri.MergeDotSlash | packages/node-wot-td-tools/test/TDParseTest.ts:92 | Appended to a directory prefix (empty or ending in "/"), a leading "./" makes no difference once dot segments are removed. |
| Uri.ResolveDotSlash | packages/node-wot-td-tools/test/TDParseTest.ts:166-172 | For any base, "./x" resolves exactly as "x" does, when x is a relative-path reference (no scheme, no authority, a non-empty path not starting with "/"). |
| TDParseTest.HostRefSplits | packages/node-wot-td-tools/test/TDParseTest.ts:45 | For any scheme and authority, an address with an absolute path is absolute and splits back into its components. |
| TDParseTest.ResolveMergedPlain | packages/node-wot-td-tools/test/TDParseTest.ts:164 | For any scheme and authority, a plain segment b against a base with path "/a/" resolves to the same scheme and authority with path "/a/b". |
| TDParseTest.MergedPath | packages/node-wot-td-tools/test/TDParseTest.ts:164 | Merging "/a/" with b and removing dot segments gives "/a/b", on any host. |
| TDParseTest.ResolveRootPlain | packages/node-wot-td-tools/test/TDParseTest.ts:180 | For any scheme and authority, "/b" against a base with path "/a/" resolves to the same scheme and authority with path "/b". |
| TDParseTest.TempHrefIsAbsolute | packages/node-wot-td-tools/test/TDParseTest.ts:128 | The href of the first two samples is absolute. |
| TDParseTest.BaseIsAbsolute | packages/node-wot-td-tools/test/TDParseTest.ts:155 | The base of the third sample is absolute. |
| TDParseTest.ResolveTemp | packages/node-wot-td-tools/test/TDParseTest.ts:164 | "temp" against the base is "coap://mytemp.example.com:5683/interactions/temp". |
| TDParseTest.ResolveDotTemp | packages/node-wot-td-tools/test/TDParseTest.ts:172 | "./temp" against the base is "coap://mytemp.example.com:5683/interactions/temp". |
| TDParseTest.ResolveHumid | packages/node-wot-td-tools/test/TDParseTest.ts:180 | "/humid" against the base is "coap://mytemp.example.com:5683/humid". |
| TDParseTest.SampleSchemes | packages/node-wot-td-tools/test/TDParseTest.ts:74 | The base and both resolved addresses have the scheme "coap". |
| TDParseTest.SerializeSampleProperty | packages/node-wot-td-tools/test/TDParseTest.ts:76-85 | A sample property object is exactly what its interaction serializes to. |
| TDParseTest.SamplePropertyWellFormed | packages/node-wot-td-tools/test/TDParseTest.ts:76-85 | A sample property interaction is well formed. |
| TDParseTest.SerializeSampleDescription | packages/node-wot-td-tools/test/TDParseTest.ts:70-75 | A sample root object is exactly what its description serializes to. |
| TDParseTest.SampleStructure | packages/node-wot-td-tools/test/TDParseTest.ts:70-107 | A sample document whose interaction objects serialize well-formed interactions reads to that structure. |
| TDParseTest.ParseOneProperty | packages/node-wot-td-tools/test/TDParseTest.ts:112-147 | A base-less sample with one property on an absolute href parses to its description, which serializes back to the document. |
| TDParseTest.ParseSample1 | packages/node-wot-td-tools/test/TDParseTest.ts:112-129 | The first sample parses to: one context entry, type "Thing", its name, no base, and one read-only property with one JSON link on the absolute href. It serializes back to itself. |
| TDParseTest.ParseSample2 | packages/node-wot-td-tools/test/TDParseTest.ts:131-147 | The second sample parses to the same with a writable property, and serializes back to itself. |
| TDParseTest.ResolveSampleProperty | packages/node-wot-td-tools/test/TDParseTest.ts:162-164 | A sample property resolves to the same property with its href resolved. |
| TDParseTest.ResolveSampleDescription | packages/node-wot-td-tools/test/TDParseTest.ts:155-181 | A sample description with an absolute base resolves each interaction in place. |
| TDParseTest.StructureOfSample3 | packages/node-wot-td-tools/test/TDParseTest.ts:70-107 | The structure of the third sample is its description with hrefs as written. |
| TDParseTest.ResolvedTemperature | packages/node-wot-td-tools/test/TDParseTest.ts:158-164 | The first interaction of the third sample resolves to the one the test expects. |
| TDParseTest.ResolvedTemperature2 | packages/node-wot-td-tools/test/TDParseTest.ts:166-172 | The second interaction resolves to the one the test expects. |
| TDParseTest.ResolvedHumidity | packages/node-wot-td-tools/test/TDParseTest.ts:174-180 | The third interaction resolves to the one the test expects. |
| TDParseTest.ParseSample3 | packages/node-wot-td-tools/test/TDParseTest.ts:149-181 | The third sample parses to its base and three properties: writable "temperature" at ".../interactions/temp", read-only "temperature2" at the same address, and read-only "humidity" at ".../humid". |
| TDParseTest.Sample3ComesBackResolved | packages/node-wot-td-tools/test/TDParseTest.ts:200-201 | The third sample's description does not serialize back to the sample, since its hrefs are written back resolved. |
| TDParseTest.RoundTrips | packages/node-wot-td-tools/test/TDParseTest.ts:183-206 | Samples 1 and 2 serialize back to the same JSON value. Sample 3 does not, but reading its serialization gives the same description. |
| TDParseTest.AsWrittenChecksOnlySample1 | packages/node-wot-td-tools/test/TDParseTest.ts:195-206 | The round-trip comparisons as written pass even when samples 2 and 3 serialize to null; the intended ones do not. |
| TDParseTest.IntendedRoundTrips | packages/node-wot-td-tools/test/TDParseTest.ts:183-206 | The intended comparisons hold: each sample against its own output, the third by the description it reads back to. |

## Left out

- Promises, logging and error message texts. An operation's rejection is an `Err` carrying the kind of failure.
- Transport semantics. `readResource`, `writeResource` and `invokeResource` are recorded as `Request` values and never performed.
- BufferAccepts: the `Buffer` wrapping of a payload (src/consumed-thing.ts:122, 145) is modelled only as whether the constructor accepts the value. The bytes it makes are not modelled, and the request carries the JSON value itself. Two limits are not modelled: the size "-0", which Node accepts, counts here as negative and refused; and sizes above Node's buffer limit, which throw, count here as accepted.
- One description type serves both sources. The consumed thing reads `interactions` and `interactionType` (src/consumed-thing.ts:79), while the parser under test yields `interaction` and `pattern` (packages/node-wot-td-tools/test/TDParseTest.ts:120-123). The model treats them as the same fields of one `ThingDescription`.
- The listener methods at src/consumed-thing.ts:151-153 do nothing and return the thing; they are not modelled.
- Concurrency: each operation runs to completion, one after another.
- The `!client` checks at src/consumed-thing.ts:95, 118 and 141 cannot fail. A cached client is never absent, and a fresh one is only returned when present, so those branches are not modelled.
- The messages at src/consumed-thing.ts:64 and 68 interpolate `schemes[-1]` and `schemes[cacheIdx]`, which are undefined at that point. Messages are not modelled.
- ConsumedThings.Servient.GetClientFor: the servient and its client factories are not part of this model. The registry is a map from scheme to the client it yields (or none), so a scheme always yields the same client handle.
- Uri.ExtractScheme: the helper that extracts a scheme is not part of this model. It is modelled as the scheme component of section 3.1 of RFC 3986, and "" when an address has none.
- The parser and serializer sources (td-parser, thing-description) are not part of this model. Their behaviour is modelled from what the parse test checks and from the field vocabulary the samples use. JSON text decoding is not modelled: `Parse` takes the decoded value.
- Absolute hrefs are kept exactly as written, not normalised; only relative hrefs go through section 5.2.2 of RFC 3986.
- Only the first entry of the root "@type" is kept, as the description's semantic type.
- Error precedence: all structural errors are reported before any address error, because parsing reads the whole structure first and then resolves addresses.
- `outputData` is carried as the JSON value given, uninterpreted. `inputData` is not modelled.
- Integer widths do not arise: the model counts only list positions.

## Findings

| source | as written | input that shows it | evidently intended | confidence | as-written member | corrected member |
|---|---|---|---|---|---|---|
| packages/node-wot-td-tools/test/TDParseTest.ts:195-206 | The second and third comparisons again compare sample 1's output with sample 1. | Samples 2 and 3 serializing to anything at all, e.g. null: the test still passes. | Each sample compared with its own output. The third is compared as the description it reads back to, because its hrefs are written back resolved. | not executed | TDParseTest.AsWrittenChecksOnlySample1 | TDParseTest.IntendedRoundTrips |
