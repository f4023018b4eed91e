# django-wfs, modelled in Dafny

A model of django-wfs, a Web Feature Service (OGC WFS 1.0.0 and 1.1.0) server
built on Django and GeoDjango, covering the core of its request handling. The
model starts where a request's path and query parameters come in. It ends at
the pieces of the response body and the statements handed to the database:

- **Dispatch**: the request dispatcher `global_handler`. It looks up the
  service, scans the parameters once (keys compared lower-cased), checks the
  `request`, `version` and `service` values, and routes the request to its
  operation.
- **FeatureRequest**: the parameter scan of `getfeature`. This covers
  `maxfeatures`, `resolution`, `precision`, `bbox` (with the CRS84 axis
  swap), `srsname` and `outputformat`, then the order of the outcomes.
- **Crs**: the CRS identifier parser in `wfs/helpers.py`. It reads integer
  SRIDs, OGC URNs and three legacy EPSG spellings, and renders them back with
  `get_urn` and `get_legacy`.
- **FeatureIds**: reading feature ids `typename.id`, and the loop over a
  comma-separated list of them.
- **ResolutionFilters**: choosing a feature type's resolution filter.
- **Extents**: the running bounding box of a response.
- **RawQuery**: the SQL statements prepared for raw feature types. These are
  built on **SqlUtils**, the token-tree rewriting helpers of
  `wfs/sqlutils.py`.
- **QueryFunctions**: the function markers of stored JSON queries,
  `wfs/functions.py`.
- **Features**: `RawFeature` and `type_feature_iter`.
- **GeoJson**: the streamed GeoJSON body, which is flushed in chunks once the
  buffer passes 16383 characters, and the related-objects JSON body.
- **Exceptions**: the texts of exception reports.
- **Models**, **Capabilities** and **NaturalKeys**: the model helpers of
  `wfs/models.py` (keyword and SRS lists, the online resource URL, the
  bounding box text, the field-list reset on save), and the sorted list of
  reference systems in a capabilities document.
- **LegacyGetFeature**: the older revision of the views (`views.py`), with
  its dispatcher, GetFeature scan, feature id loop and XML fragments.

Everything the service gets from its environment is a parameter of the model:

- whether a service or feature type exists;
- what the ORM finds;
- the column names and rows of a cursor;
- the JSON text of a geometry;
- Python's `float()`;
- the site's domain.

The model works on Python values, not on bytes. Strings are `seq<char>`.
Numbers are unbounded integers or reals, because the source does no
fixed-width arithmetic.

Three behaviours are modelled as the code has them:

- A bad `srsname` value in `getfeature` is reported under the locator
  `maxfeatures` (`FeatureRequest.LocatorOf`).
- The `ST_Simplify` placeholder of a raw type query is given the requested
  resolution, not the precision (`RawQuery.TypeArgs`).
- The featureid branch of a raw feature type runs the stored query itself,
  not the statement it prepared (`RawQuery.IdPlanAsWritten`).

The last of these is also listed under Findings, next to the corrected
`RawQuery.IdPlan`.

## Model

| member | source | states |
|---|---|---|
| Crs.Parse | wfs/helpers.py:41-107 | Every CRS the constructor accepts is well formed: its domain is ogc or opengis and its authority EPSG or OGC. OGC is accepted only for CRS84 at SRID 4326. An EPSG id's `int()` is the SRID. An integer input is always accepted, with that SRID. |
| Crs.MatchWhole | wfs/helpers.py:17 | A match of the URN expression means the input splits at its colons into seven fields of the shapes the expression requires. |
| Crs.FromUrn | wfs/helpers.py:65-89 | The URN branch keeps the matched domain and version. |
| Crs.LegacyHead | wfs/helpers.py:91-93 | Returns the first of the three legacy prefixes the lower-cased input starts with. Returns none when the input starts with none of them. |
| Crs.FromLegacy | wfs/helpers.py:91-102 | A legacy input is EPSG in domain ogc at registry version 6.9. Its SRID is the `int()` of the text after the prefix. |
| Crs.ParseSrid | wfs/helpers.py:56-59 | An integer n is EPSG n at version 6.9. Its URN is `urn:ogc:def:crs:EPSG:6.9:n`. |
| Crs.Wgs84IsSrid4326 | wfs/helpers.py:127 | `WGS84_CRS` is the CRS that the integer 4326 gives. |
| Crs.ParseIgnoresCase | wfs/helpers.py:61-63 | Lower- or upper-casing the input first does not change the result. |
| Crs.ParseOfSameLower | wfs/helpers.py:61-63 | Two inputs that lower-case alike parse alike. |
| Crs.ParseAnyCase | wfs/helpers.py:61-63 | An input parses as its lower-cased form does. |
| Crs.ParseShapedUrn | wfs/helpers.py:61-72 | A URN of the required shape reaches the URN branch with its own domain, authority, version and id. |
| Crs.ParseEpsgUrn | wfs/helpers.py:74-76 | An EPSG URN with a digit id parses to that id's value as SRID. This holds in both domain spellings and with an empty, two-part or three-part version. |
| Crs.ParseOgcUrn | wfs/helpers.py:78-84 | An OGC URN is accepted exactly for CRS84, as SRID 4326. Any other id is refused as an unknown OGC id. |
| Crs.ParseUrnUnknownDomain | wfs/helpers.py:68-69 | A URN whose domain is neither ogc nor opengis is refused with that domain. |
| Crs.ParseUrnUnknownAuthority | wfs/helpers.py:86-87 | A URN whose authority is neither EPSG nor OGC is refused with that authority. |
| Crs.ParseEpsgUrnCrs84 | wfs/helpers.py:106-107 | An EPSG URN whose id is CRS84 is refused because its id is not a number. |
| Crs.ParseUrnBadVersion | wfs/helpers.py:103-104 | A version that is neither empty nor two or three numeric parts makes the input unknown. |
| Crs.ParseLegacyText | wfs/helpers.py:91-97 | After a legacy prefix, an `int()`-readable remainder gives EPSG at 6.9 with that SRID. Any other remainder is refused. |
| Crs.ParseLegacyForm | wfs/helpers.py:91-102 | Any letter case of the three legacy prefixes followed by digits gives EPSG at 6.9, with the digits' value as SRID. |
| Crs.ParseLegacyAlphanumeric | wfs/helpers.py:106-107 | A legacy remainder that is not a number is refused. |
| Crs.ParseLegacyCrs84 | wfs/helpers.py:94-97 | `EPSG:CRS84` is refused. |
| Crs.DialectsAgree | wfs/helpers.py:74-97 | The same digits after any legacy prefix, or as the id of an EPSG URN, give the same SRID. |
| Crs.UrnIsNotLegacy | wfs/helpers.py:89-91 | A URN-shaped input never reaches the legacy prefixes. |
| Crs.LegacyRoundTrip | wfs/helpers.py:109-113 | `get_legacy()` parses back to the same SRID, for every CRS. |
| Crs.SridIsCanonical | wfs/helpers.py:99-102 | A CRS built from a non-negative integer lies in the domain on which the URN rendering round-trips. |
| Crs.UrnIsCanonical | wfs/helpers.py:65-89 | A CRS built from a URN lies in that domain too. |
| Crs.UrnRoundTripWithVersion | wfs/helpers.py:115-119 | `get_urn()` of a canonical CRS that has a version parses back to the very same CRS. Canonical means: domain `ogc` or `opengis`, an absent or well-formed version, and either an EPSG id of plain digits with their value as SRID or OGC `CRS84` with SRID 4326. Every CRS built from a non-negative integer or from a URN is canonical; legacy ids with a sign or padding are not. |
| Crs.UrnWithoutVersionDoesNotRoundTrip | wfs/helpers.py:115-119 | Without a version, `get_urn()` writes `None` where the version goes, and the result no longer parses. The corrected rendering parses back to the same CRS. |
| Crs.UrnRoundTripFixed | wfs/helpers.py:115-119 | A rendering that writes an absent version as empty parses back to the very same CRS, for every canonical CRS. |
| Crs.SignedIdDoesNotRoundTrip | wfs/helpers.py:91-102 | A legacy id that starts with a sign or with whitespace is kept as typed, so neither URN rendering of it parses back. |
| Crs.NegativeSridDoesNotRoundTrip | wfs/helpers.py:56-59 | `CRS(n)` for a negative integer keeps `-n` as its id: its URN does not parse back, while `get_legacy()` still gives the same SRID. |
| Crs.PlusSignLegacyDoesNotRoundTrip | wfs/helpers.py:91-97 | `EPSG:+4326` is accepted with SRID 4326 but keeps `+4326` as its id, so its URN does not parse back. |
| Crs.UrnWithoutVersionExample | wfs/helpers.py:72-76 | `urn:ogc:def:crs:epsg::4258` parses, and its `get_urn()` is `urn:ogc:def:crs:EPSG:None:4258`. |
| QueryFunctions.Lookup | wfs/functions.py:21 | `dct[key]` is the value of the last member with that key, as the decoder builds the dict before the hook sees it and a later duplicate overwrites an earlier one. |
| QueryFunctions.Hook | wfs/functions.py:17-34 | An object without the marker key comes back unchanged, with the cache untouched. Otherwise the cache only grows, and it caches only registered names, each once. |
| QueryFunctions.Rewrite | wfs/functions.py:36-47 | Decoding with the hook keeps the cache valid and never drops an entry. |
| QueryFunctions.RewriteAll | wfs/functions.py:36-47 | An array keeps its length, and the cache only grows. |
| QueryFunctions.RewriteMembers | wfs/functions.py:36-47 | An object keeps its keys in their order, and the cache only grows. |
| QueryFunctions.MarkerFreeUnchanged | wfs/functions.py:19-34 | A document without markers decodes to itself, and the cache is not touched. |
| QueryFunctions.UnknownFunctionFails | wfs/functions.py:21-25 | A marker naming a function outside the registry fails as an unsupported function. The source's `ValueError` text is the literal `[%s]`, with no name filled in; the name in the model's error is only for reference. |
| QueryFunctions.MarkerReplaced | wfs/functions.py:21-32 | A marker object is replaced as a whole by the function's value: on its first occurrence by a fresh evaluation, afterwards by the cached value. |
| QueryFunctions.AtMostOneEvaluationPerName | wfs/functions.py:11-31 | One decoding evaluates each function at most once, so it makes no more evaluations than `context` has names, which is three. |
| QueryFunctions.RepeatedMarkerShared | wfs/functions.py:27-31 | The concrete case: an array of two markers with the same name decodes to two copies of the value of the first evaluation. |
| QueryFunctions.RewriteAgrees | wfs/functions.py:17-34 | From a valid cache, every function value in the decoded document, old or new, is the value the cache holds for its name at the end. |
| QueryFunctions.OneValuePerName | wfs/functions.py:27-47 | Within one `parse_query` call, all markers naming the same function, anywhere in the document, get one and the same value, the one cached for that name. |
| QueryFunctions.AgreesGrows | wfs/functions.py:27-30 | Since the cache only gains entries and never changes one, a value that matched it stays matched. |
| QueryFunctions.RewriteTwo | wfs/functions.py:45-47 | The elements of an array are decoded in order, and the cache passes from each element to the next. |
| QueryFunctions.FreshCachePerParse | wfs/functions.py:45 | Every `parse_query` call starts from an empty cache. |
| Exceptions.WfsException | wfs/views.py:735-761 | A report keeps the code and locator it was raised with, and its text is never empty. |
| Exceptions.LegacyWfsException | views.py:198-222 | The older report keeps code and locator. Its text is empty exactly for `NoGeometryField`, which the older revision does not know. |
| Exceptions.QuotedValueRecovered | wfs/views.py:741-751 | For the codes whose text quotes the offending value, that value can be read back out of the text. |
| Exceptions.UnframedIgnoresValue | wfs/views.py:749-758 | For the other codes the text does not depend on the value. Except for a missing parameter, it does not depend on the locator either. |
| Exceptions.LegacyAgrees | views.py:203-219 | The two revisions produce the same text for every code except `NoGeometryField`. |
| ParamScan.FoldStopsAtFirst | wfs/views.py:40-57 | A parameter loop that fails on exactly the bad parameters fails at the first of them, with its fault. |
| ParamScan.FoldKeeps | wfs/views.py:361-452 | A property that every step of a parameter loop keeps holds after the loop. |
| ParamScan.FoldAlike | wfs/views.py:40-57 | Two parameter lists that every step treats alike give the same loop result. |
| Dispatch.FirstRejected | wfs/views.py:40-57 | Finds the position of the first parameter the scan refuses, with no refused parameter before it. |
| Dispatch.LastValue | wfs/views.py:40-57 | Finds the value of the last parameter with a given lower-cased key, or none when no key matches. |
| Dispatch.ScanStopsAtFirstRejected | wfs/views.py:40-57 | The scan fails exactly when some parameter is refused, and it reports the first one. |
| Dispatch.StepRejects | wfs/views.py:44-57 | One parameter is refused exactly when it is a bad request, version or service value, whatever came before it. |
| Dispatch.ScanCollectsLastValues | wfs/views.py:40-57 | A scan without fault ends with the last request and service values given, lower-cased, and the last version given. |
| Dispatch.ScanIgnoresKeyCase | wfs/views.py:41 | Parameters whose keys differ only in letter case scan alike. |
| Dispatch.GlobalHandler | wfs/views.py:27-72 | A routed request always runs under an accepted version, 1.0.0 or 1.1.0. |
| Dispatch.UnknownServiceFirst | wfs/views.py:35-38 | An unknown service is reported before any parameter is looked at. |
| Dispatch.FirstBadValueReported | wfs/views.py:40-57 | The first bad request, version or service value in scan order is the one reported. |
| Dispatch.ScanOutcome | wfs/views.py:59-72 | Without a bad value, a missing request is reported first and a missing service second. Otherwise the named operation runs under the last version given, or 1.1.0 by default. |
| Dispatch.RouteOfRequest | wfs/views.py:65-70 | Every accepted request value names an operation, so the fallback `UnknownError` is never reached. |
| Dispatch.HandlerIgnoresKeyCase | wfs/views.py:40-42 | The handler's answer does not depend on the letter case of the keys. |
| Dispatch.LegacyAcceptsThreeNumbers | views.py:33-40 | The older version check accepts any three dot-separated numbers. |
| Dispatch.LegacyAcceptsCurrent | views.py:33-40 | Both versions the current revision accepts pass the older check. |
| Dispatch.LegacyRejectsTwoParts | views.py:39-40 | A version of two numbers fails the older check. |
| Dispatch.LegacyOrder | views.py:19-51 | The older dispatcher orders its reports the same way: unknown service, first bad value, missing request, missing service. |
| FeatureRequest.ParseBoxFails | wfs/views.py:411-425 | A bounding box is refused exactly for its own values (a corner that is no number, or a CRS that does not parse), whatever the request's CRS. |
| FeatureRequest.RequestCrs | wfs/views.py:427-433 | The CRS a request is served in is never CRS84. |
| FeatureRequest.InitialConsistent | wfs/views.py:353-359 | The scan starts in a consistent state. |
| FeatureRequest.ScanConsistent | wfs/views.py:361-452 | Every scan that goes through ends in a consistent state: the request CRS is not CRS84, and a box without a CRS of its own is in the request CRS. |
| FeatureRequest.StepConsistent | wfs/views.py:401-440 | Each parameter of the scan keeps that state consistent. |
| FeatureRequest.ParseBoxInRequestCrs | wfs/views.py:414-423 | A box of four values takes the request's SRID. |
| FeatureRequest.FirstRejected | wfs/views.py:361-452 | Finds the position of the first parameter the scan refuses. |
| FeatureRequest.StepRejects | wfs/views.py:361-452 | One parameter fails exactly when its value is refused, whatever came before it, and it fails with that parameter's fault. |
| FeatureRequest.ScanStopsAtFirstRejected | wfs/views.py:361-452 | The scan fails exactly when some parameter is refused, and it reports the first one. |
| FeatureRequest.MaxFeaturesAccepted | wfs/views.py:371-378 | `maxfeatures` is accepted exactly when it is an integer of at least 1, and that integer is kept. |
| FeatureRequest.OutputFormatAccepted | wfs/views.py:445-452 | `outputformat` is accepted exactly when it names a JSON or an XML format, and it selects JSON exactly for the JSON names. |
| FeatureRequest.BoxArity | wfs/views.py:406-409 | A box of other than four or five values is refused. Five values are refused under WFS 1.0.0. |
| FeatureRequest.BoxInCrs84Swapped | wfs/views.py:412-419 | A box given in CRS84 has its axes swapped into WGS84, SRID 4326. |
| FeatureRequest.BoxKeepsOrder | wfs/views.py:420-423 | A box in any other CRS keeps its axis order and takes that CRS's SRID. Without a fifth value it takes the request's CRS. |
| FeatureRequest.GetFeatureParams | wfs/views.py:454-470 | A request that is served is in a consistent state and not in CRS84. |
| FeatureRequest.OutcomeOrder | wfs/views.py:454-461 | The unsupported parameters raise first. Then feature ids win over type names. With neither, the type name is reported missing. |
| FeatureRequest.BoxFollowsRequestCrs | wfs/views.py:438-440 | A served box without a CRS of its own is in the request's CRS, whichever of `bbox` and `srsname` came first. |
| FeatureRequest.FirstRefusalReported | wfs/views.py:361-452 | The first refused parameter is reported as an invalid value with its value as given. A bad `srsname` is reported under the locator `maxfeatures`. |
| FeatureIds.FeatureFromParameter | wfs/views.py:810-818 | An id is read as the dot-free text before the first dot, and the `int()` of the rest. |
| FeatureIds.FeatureIdRoundTrip | wfs/views.py:810-818 | An id written as `name.number` with a dot-free name is read back as that name and number. |
| FeatureIds.TwoDotsRefused | wfs/views.py:816-818 | An id with a second dot is refused. |
| FeatureIds.LegacyFeatureFromParameter | views.py:252-262 | The older reading accepts exactly the ids with one dot. |
| FeatureIds.LegacyParts | views.py:252-262 | The older reading gives two dot-free texts that, joined by the dot, are the id. |
| FeatureIds.LegacyRoundTrip | views.py:252-262 | Two dot-free texts joined by a dot are read back by the older reading. |
| FeatureIds.RevisionsAgree | wfs/views.py:810-818 | Where the older reading hands on the number as text, the current one reads it as the number it spells. |
| FeatureIds.ResolveAll | wfs/views.py:475-481 | The id loop reads every id in order, each naming a known feature type. Otherwise it reports the first id that fails. |
| FeatureIds.ResolveFeatureIds | wfs/views.py:475-481 | The same, with `get_feature_from_parameter` and its report. |
| FeatureIds.LegacyResolveFeatureIds | views.py:161-169 | The same, with the older reading and report. |
| ResolutionFilters.Best | wfs/views.py:615 | Picks a filter whose threshold does not exceed the resolution and is the greatest of those that apply. Returns none exactly when no filter applies. |
| ResolutionFilters.ChooseFilter | wfs/views.py:615 | The one-pass loop picks the same filter. |
| ResolutionFilters.FilterFor | wfs/views.py:613-617 | Without a resolution no filter is added. Otherwise the added filter is the one with the greatest applicable threshold, and none is added exactly when none applies. |
| ResolutionFilters.FinerPicksLower | wfs/views.py:615 | A coarser request never picks a filter of lower threshold. |
| ResolutionFilters.IgnoresHigherThresholds | wfs/views.py:615 | Adding a filter above the requested resolution changes nothing. |
| Extents.Union | wfs/views.py:556-557 | The widened box covers both boxes, and it is the smallest box that does. |
| Extents.AsWrittenFailsIff | wfs/views.py:553-557 | The running box as written fails, reported as a malformed query, exactly when a feature type without rows follows one with rows. |
| Extents.AsWrittenRefusesEmptyAfterFilled | wfs/views.py:691-695 | A type with rows followed by a type without rows makes the request fail, where the intended box is that of the first type. |
| Extents.Fold | wfs/views.py:691-695 | The intended running box covers every non-empty aggregate and is the smallest box that does. It is absent exactly when every aggregate is empty. |
| Extents.AsWrittenAgrees | wfs/views.py:553-557 | Where the code as written does not fail, it computes the intended box. |
| Features.Put | wfs/views.py:234 | Assigning a key keeps the place of a present key and appends a new one, and no other key changes. |
| Features.RawFeatureProps | wfs/views.py:220-234 | Every column but `shape` becomes a property. Its value is that of the last column of that name, and the properties are in the order the names first appear. |
| Features.RawFeatureId | wfs/views.py:231-232 | A feature's id is the value of its last `id` column, if there is one. |
| Features.RawFeatureGeometry | wfs/views.py:221-228 | When no `shape` value is NULL, a feature's geometry is that of its last `shape` column, in the requested CRS when one is given. There is no geometry exactly when there is no such column. `Features.ReadRawFeature` covers NULL values. |
| Features.ReadRawFeature | wfs/views.py:216-228 | Building a feature raises exactly when some `shape` column of the row holds NULL, and it raises at the first such column. Otherwise it gives the feature, with no geometry exactly when the row has no `shape` column. |
| Features.NoShapeNoGeometry | wfs/views.py:520-523 | A row without a `shape` column has no geometry. |
| Features.GroupItems | wfs/views.py:176-187 | A type yields one item per row or object, each tagged with the type. A raw type yields `RawFeature`s; a model type yields its objects, converted for JSON output. |
| Features.StreamOne | wfs/views.py:176-187 | A single type yields its own features. |
| Features.StreamAppend | wfs/views.py:173-177 | Adding a type after others appends its features after theirs. |
| Features.StreamLength | wfs/views.py:176-187 | Every feature of every type is yielded exactly once. |
| GeoJson.IdTextReadBack | wfs/views.py:313-314 | The id the GeoJSON output writes is read back by `get_feature_from_parameter` as the type and number it was written from. |
| GeoJson.Rendered | wfs/views.py:311-316 | Writes the features before the first one the writer cannot write: one whose id is missing or not an integer, whose geometry is missing, or whose properties the encoder cannot write. |
| GeoJson.GeoJsonChunks | wfs/views.py:298-331 | The stream fails exactly when some feature cannot be written (a missing or non-integer id, a missing geometry, or properties the encoder cannot write), and it has then sent a prefix of the document up to that feature. Otherwise the pieces concatenate to the whole document. Every piece but the last is longer than 16383 characters, and a short document is sent in one piece. |
| GeoJson.WriteTexts | wfs/views.py:308-325 | The pieces handed on plus the buffer are the opening followed by the comma-joined features. Each piece handed on is longer than the limit. |
| GeoJson.Close | wfs/views.py:327-328 | Closing the buffer completes the document, and nothing was sent before it when the body stayed within the limit. |
| GeoJson.RelatedChunks | wfs/views.py:832-851 | The related-objects body is the opening, then one piece per object with a comma in front of all but the first, then the closing with the count. |
| LegacyGetFeature.ScanStopsAtFirstRejected | views.py:116-145 | The older scan fails exactly at the first refused `maxfeatures`, with its value. |
| LegacyGetFeature.StepRejects | views.py:126-133 | A parameter fails exactly when it is a `maxfeatures` that is not an integer of at least 1. |
| LegacyGetFeature.GetFeatureParams | views.py:106-192 | Every refusal is an invalid value or a missing parameter. |
| LegacyGetFeature.OutcomeOrder | views.py:147-192 | After the scan, any of `propertyname`, `featureversion`, `filter` or `bbox` raises. Otherwise feature ids win over type names, and with neither the type name is reported missing. |
| LegacyGetFeature.BoxNotImplemented | views.py:156-157 | Any `bbox` parameter makes a request that passes the scan raise. |
| LegacyGetFeature.ScanSetsBox | views.py:144-145 | A `bbox` key anywhere leaves a box in the state of a scan that goes through. |
| LegacyGetFeature.FeaturesById | views.py:161-177 | The id loop gives every id's type and number in order, each of a known type whose stored query decodes and whose query set yields it. Otherwise it stops at the first problem: an unreadable id or an unknown type (a bad `featureid`), a stored query that is not JSON (a `ValueError` no `except` catches), or a feature the query set does not yield (a malformed query). |
| LegacyGetFeature.MissingIdIsMalformedQuery | views.py:171-175 | An id whose feature is not found is reported as a malformed query, not as a bad id. |
| LegacyGetFeature.UndecodableQueryEscapes | views.py:168-177 | A known type whose stored query is not JSON ends the view with the uncaught decoding error, whether or not the id exists and before any later id is read. |
| LegacyGetFeature.Emitted | views.py:238-249 | Exactly the fields listed (all of them when the list is empty) are written, in model order. The geometry is written only when the feature has GML. |
| LegacyGetFeature.FeatureXmlOfEmitted | views.py:238-249 | A feature's XML is the elements of the emitted fields, one after the other. |
| LegacyGetFeature.EmptyListEmitsAll | views.py:242 | With no field list every field is written. |
| LegacyGetFeature.NoGmlNoGeometry | views.py:243-245 | Without GML the geometry is never written. |
| LegacyGetFeature.SchemaXmlOfSelected | views.py:225-235 | The schema declares exactly the listed fields, including the geometry. |
| Models.SplitCommaSeparated | wfs/models.py:13-25 | A blank value gives no parts. Otherwise it gives one part per comma plus one, each part comma-free and without surrounding whitespace. |
| Models.SplitCommaSeparatedIsStripSplit | wfs/models.py:13-25 | The regular-expression split is the same as stripping the value, splitting it at every comma and stripping every part. |
| Models.ServiceKeywords | wfs/models.py:50-55 | A NULL keyword column raises. Otherwise the keywords are comma-free and unpadded, with none exactly for a blank column. |
| Models.FeatureTypeKeywords | wfs/models.py:98-103 | The same for a feature type's keywords. |
| Models.OtherSrsNames | wfs/models.py:91-96 | The same for a feature type's other SRS names. |
| Models.FirstGeometry | wfs/models.py:85-89 | Returns the first field in the list that is a geometry, or the first name the model lacks (which raises), or nothing when every field is plain. |
| Models.FindFirstGeometryField | wfs/models.py:85-89 | A NULL field list raises, and a feature type without a model raises. Otherwise the unstripped comma-split of the list is searched as above. |
| Models.Save | wfs/models.py:78-83 | Saving changes nothing but the field list. The list is cleared exactly when a stored row exists and its model changed. Saving an unknown primary key raises. |
| Models.SaveIdempotent | wfs/models.py:78-83 | Saving the saved row again changes nothing. |
| Models.OnlineResource | wfs/models.py:37-45 | The URL is the domain followed by the path, prefixed by `http://` exactly when the domain names no scheme. |
| Models.OnlineResourceHasScheme | wfs/models.py:37-45 | The URL always names a scheme and ends in the path. |
| Models.OnlineResourceStable | wfs/models.py:41-43 | Applying the rule to its own result adds nothing more. |
| Models.BoxText | wfs/models.py:129-130 | The text is the four coordinates with twelve characters of punctuation. |
| Models.BoxTextFields | wfs/models.py:129-130 | With comma-free coordinates, the text splits at its commas into the four framed coordinates. |
| NaturalKeys.Pieces | wfs/views.py:100 | The cut of a name into digit-free text and digit runs gives the name back when concatenated. |
| NaturalKeys.PiecesShape | wfs/views.py:100 | The pieces alternate, starting and ending with text and with digit runs in between. |
| NaturalKeys.Keys | wfs/views.py:94-100 | Text pieces are kept as text and digit runs become their values. |
| NaturalKeys.KindsAlign | wfs/views.py:94-100 | Two keys never put a number against a text, so comparing them cannot raise. |
| NaturalKeys.KeyLessStrictTotal | wfs/views.py:122 | The order on keys is a strict total order. |
| NaturalKeys.NumbersInOrder | wfs/views.py:94-100 | Names that differ only in a trailing number are ordered by its value: `EPSG:4326` comes before `EPSG:31467`. |
| NaturalKeys.NotAfterPreorder | wfs/views.py:122 | "Not after" by natural key is a total preorder. |
| NaturalKeys.SortBy | wfs/views.py:122 | The sort returns a permutation of its input, ordered by the given preorder. |
| NaturalKeys.SortNames | wfs/views.py:121-122 | The sorted names are a permutation of the names, each not later than the next by natural key. |
| Capabilities.Collected | wfs/views.py:114-119 | The names collected are exactly each type's `srs` and other SRS names. Collecting raises exactly when some type has a NULL `othersrs`. |
| Capabilities.Distinct | wfs/views.py:112-121 | Keeps the same names, each once. |
| Capabilities.AllSrsNames | wfs/views.py:108-123 | The capabilities list holds exactly the offered names, each once, in natural order. It raises exactly when some `othersrs` is NULL. |
| SqlUtils.ParseSingle | wfs/sqlutils.py:10-17 | One statement is returned as it is. Any other number raises. |
| SqlUtils.GetIdentifiers | wfs/sqlutils.py:23-30 | Returns the first identifier list of the statement, or raises exactly when there is none. |
| SqlUtils.FindFrom | wfs/sqlutils.py:32-38 | Returns the first entry whose `get_name()` is the alias; that is its alias, found after AS or last after whitespace even when the parser nests it as an identifier of its own, or otherwise its real name. Raises when no entry has that name, or when a plain token among the entries stops the search. |
| SqlUtils.FindIdentifier | wfs/sqlutils.py:32-38 | A found entry has the alias as its `get_name()`. |
| SqlUtils.ReplaceAt | wfs/sqlutils.py:40-44 | The replacement leaves the number of tokens unchanged. |
| SqlUtils.ReplaceAtKeepsOrder | wfs/sqlutils.py:40-44 | Only whitespace moves: the other tokens keep their order, with the replacement where the original was. |
| SqlUtils.ReplaceAtInPlace | wfs/sqlutils.py:40-44 | With no whitespace after the original, the replacement takes its very position. |
| SqlUtils.ReplaceIdentifier | wfs/sqlutils.py:40-44 | The select list keeps its kind. |
| SqlUtils.BareTokens | wfs/sqlutils.py:51-56 | The copy is the leading run of names and punctuation. |
| SqlUtils.BareIdentifier | wfs/sqlutils.py:46-57 | The bare copy is an identifier. |
| SqlUtils.BuildComparison | wfs/sqlutils.py:60-72 | Builds a comparison of five tokens. |
| SqlUtils.BuildFunctionCall | wfs/sqlutils.py:74-108 | Builds a function token. |
| SqlUtils.RenderComparison | wfs/sqlutils.py:60-72 | A comparison reads `bare op %s`. |
| SqlUtils.RenderFunctionCall | wfs/sqlutils.py:74-108 | A call reads `f(bare,%s,...)`, with ` AS alias` only when asked for and when `get_alias()` finds an alias, nested or not. |
| SqlUtils.BareIsPlain | wfs/sqlutils.py:51-56 | A bare copy holds no placeholder and no literal. |
| SqlUtils.ComparisonIsParameterised | wfs/sqlutils.py:60-72 | A comparison holds exactly one placeholder and no literal value, whatever identifier it was built from. |
| SqlUtils.FunctionCallIsParameterised | wfs/sqlutils.py:74-108 | A call holds exactly as many placeholders as parameters asked for, and no literal value. |
| SqlUtils.ConditionTokens | wfs/sqlutils.py:112-113 | A condition given as SQL text must be one statement. |
| SqlUtils.AddCondition | wfs/sqlutils.py:110-135 | Adding a condition keeps the statement's kind, and it fails exactly when the condition does. |
| SqlUtils.RenderNewWhereAtEnd | wfs/sqlutils.py:117-125 | Without a WHERE clause and an `order`, the statement gains ` where <condition>` at its end. |
| SqlUtils.RenderNewWhereBeforeOrder | wfs/sqlutils.py:121-127 | Without a WHERE clause but with an `order`, `where <condition>` goes right before it. |
| SqlUtils.RenderExtendWhere | wfs/sqlutils.py:129-135 | An existing WHERE clause gains ` and <condition>`, and the rest stays as it was. |
| SqlUtils.RenderExtendLastWhere | wfs/sqlutils.py:129-135 | A WHERE clause at the end gains ` and <condition>` at the very end. |
| SqlUtils.AddConditionTwice | wfs/sqlutils.py:110-135 | Two conditions are AND-joined in call order. |
| SqlExamples.IdentName | wfs/sqlutils.py:32-38 | A lone identifier has no alias; its name is its text. |
| SqlExamples.AliasAfterAs | wfs/sqlutils.py:32-38 | An entry `... as alias` is named by its alias, whether the alias is a plain name or the identifier the parser nests after AS. |
| SqlExamples.ShapeColumnAlias | tests.py:48-53 | `wkb_geometry as shape` is named `shape`, as parsed with the nested alias, flat, or with a table qualifier; `objectid as id` is named `id`; the real name of the shape entry stays `wkb_geometry`. |
| SqlExamples.ShapeColumnBare | tests.py:96-118 | The bare copy drops the alias and keeps a table qualifier. |
| SqlExamples.SimplifyCall | tests.py:48-58 | The simplified entry, built from the entry with the nested alias, reads `ST_Simplify(wkb_geometry,%s) AS shape`. |
| SqlExamples.IntersectsCall | tests.py:72-94 | The bounding box test reads `ST_Intersects(wkb_geometry,%s)`, without an alias. |
| RawQuery.Prepare | wfs/views.py:598-602 | The stored query must be one statement with a select list holding entries named `shape` and `id`. Anything else raises. |
| RawQueryExamples.ExampleFindsEntries | tests.py:50-53 | In the select list of `select objectid as id, name,area,wkb_geometry as shape from import.abc_polygon`, `shape` is the last entry and `id` the first. |
| RawQueryExamples.ExampleQueryPrepares | wfs/views.py:598-602 | That statement prepares, with both entries found by their nested aliases. |
| RawQueryExamples.ExampleSimplifiedText | tests.py:48-58 | Simplifying it gives `select objectid as id, name,area,ST_Simplify(wkb_geometry,%s) AS shape from import.abc_polygon`. |
| RawQuery.Simplified | wfs/views.py:607-610 | Simplifying keeps the statement's kind. |
| RawQuery.Simplify | wfs/views.py:607-610 | The same, with no change when no precision is asked for. |
| RawQuery.TypeArgs | wfs/views.py:611-627 | There is one argument for the simplification and one for the box. |
| RawQuery.TypePlan | wfs/views.py:598-629 | The arguments are the resolution (in the `ST_Simplify` slot, when a precision is asked for), then the box. The precision itself is never passed. |
| RawQuery.TypePlanFails | wfs/views.py:598-629 | The type query fails exactly when the stored query cannot be prepared, or when a resolution filter in use is not one statement. |
| RawQuery.TypePlanParameterised | wfs/views.py:604-637 | For queries without placeholders of their own, there is exactly one placeholder per argument. |
| RawQuery.TypePlanConditionOrder | wfs/views.py:613-629 | Without WHERE and `order`, the filter and then the box test end the statement, AND-joined. |
| RawQuery.SimplifyKeepsClauses | wfs/views.py:607-626 | Simplifying touches only the select list. |
| RawQuery.IdStatement | wfs/views.py:497-505 | The prepared featureid statement keeps the statement's kind. |
| RawQuery.IdArgs | wfs/views.py:513-516 | The arguments are the precision, when asked for, then the feature's number. |
| RawQuery.IdPlanAsWritten | wfs/views.py:491-516 | The cursor runs the stored query itself, with the precision and number as arguments. |
| RawQuery.IdPlanAsWrittenMismatch | wfs/views.py:511-516 | A stored query without placeholders gets more arguments than it has placeholders. |
| RawQuery.IdPlan | wfs/views.py:491-516 | The corrected branch runs the prepared statement with the same arguments. |
| RawQuery.IdPlanParameterised | wfs/views.py:497-505 | With the prepared statement run, every argument has its placeholder. |

## Left out

- The ORM and GeoDjango are parameters. Whether a service or type exists, what a query set holds, the classification of model fields, and the SRID a stored geometry carries are all inputs. `Transform`, `AsGML`, `AsGeoJSON`, the `Extent` aggregate and the `bboverlaps` filter are not modelled.
- The SQL lexer (`sqlparse.parse`) is not modelled: statements are given as token trees. `get_alias`, `get_real_name` and `get_name` follow the token tree the way sqlparse 0.3 does, with nested identifiers and functions giving their own names; quoted names and the removal of their quotes are not modelled.
- `json.loads` and `json.dumps` are not modelled. Whether a stored query decodes is an oracle, a decoded document is given as a tree, the JSON texts of geometries, properties and boxes are inputs, and quoting a text is a parameter.
- `float()` is the oracle `number`. `datetime.now()` and the timestamps derived from it are represented by the function's name and the ordinal of its evaluation.
- Templates and `render`, the XML documents they produce, logging, and `StreamingHttpResponse` are not modelled.
- Cursor execution, fetching, and closing the cursor in `finally` are not modelled.
- `describefeaturetype`, `related_handler` and the `featuretype_to_xml` helper of wfs/views.py are not modelled; only the older revision's XML fragments are.
- The per-type work of the `typename` loop is modelled only in its pieces (filter choice, statement, feature stream, running box). These include the `name__iexact` lookup, the `NoGeometryField` check against the cursor's columns, and the model query set with its filters.
- The GML output of a raw feature type is not modelled. In the typename branch its `NotImplementedError` (wfs/views.py:595-596) leaves the view. In the featureid branch the raise at wfs/views.py:488-489 is inside the blanket `except` at 572-574, so it is reported as `MalformedJSONQuery` with locator `query`.
- `DjangoFeature`'s conversion of a model object is left abstract.
- FeatureIds.ResolveFeatureIds: covers reading the ids and looking up their types. It does not model the database work the source does for each id before reading the next, which can report `MalformedJSONQuery` or `NoGeometryField` first. It also does not model `CRS(ft.srs)` at wfs/views.py:482 for a known type. When the stored `srs` does not parse, the `SyntaxError` is caught by neither the `except FeatureType.DoesNotExist` at 575 nor the `try`/`finally` at 467, so the request ends uncaught before the next id is read.
- Capabilities.AllSrsNames: replaces the iteration order of the Python `set` by the order of first occurrence. This matters only among names with equal natural keys, such as `EPSG:01` and `EPSG:1`, which `sort` leaves in set order.
- ResolutionFilters.Best: among filters of equal threshold, picks the first listed. The database leaves that order open.
- Crs.UrnRoundTripFixed: holds for canonical CRSs only. A legacy id with a sign or padding (`EPSG:+4326`, `EPSG: 4326`) and `CRS(n)` for a negative `n` keep the id as typed; their URN does not parse back, as Crs.SignedIdDoesNotRoundTrip, Crs.PlusSignLegacyDoesNotRoundTrip and Crs.NegativeSridDoesNotRoundTrip show.
- Strings.Lower: changes only ASCII letters. Python's Unicode case mapping is not modelled.
- Strings.ParseInt: follows Python 3's `int(str)` only for ASCII digits with an optional sign. Since Python 3.6, `int()` also accepts underscores between digit groups (`4_326`, `1_0`) and non-ASCII decimal digits. These texts are refused here, so `srsName=EPSG:4_326`, `maxfeatures=1_0` and the featureid `t.1_0` are refused where the service accepts them. Surrounding whitespace is stripped only for the Latin-1 whitespace of `Strings.IsSpace`, not the other Unicode spaces.
- Dispatch.LegacyGlobalHandler: reads `map(int, ...)` as a list, as under Python 2, for which the older revision was written.
- Features.Placed: does not model the transform itself; a transformed geometry keeps its source value and carries the target SRID. It is applied only to non-NULL values, since `Features.ReadRawFeature` raises first on a NULL `shape`.
- Features.GroupItems: builds the features of a raw type with `RawFeature`, which assumes no `shape` value is NULL. With a NULL one, `Features.ReadRawFeature` gives the `TypeError`. In the typename stream that error leaves the view; in the featureid branch the blanket `except` at wfs/views.py:572-574 reports it as `MalformedJSONQuery`. Neither path is carried through the stream.
- GeoJson.GeoJsonChunks: takes the id as `"%d"` reads it. A float id, which `"%d"` truncates without error, arrives already truncated; the truncation is not modelled.
- NaturalKeys.Pieces: cuts only at ASCII digits. On a Python 3 `str`, `re.split('(\\d+)', text)` also cuts at other Unicode decimal digits. `str.isdigit` is also true for characters such as `²`, for which `int()` then raises. Neither is modelled.

## Findings

| source | as written | input that shows it | evidently intended | confidence | as-written member | corrected member |
|---|---|---|---|---|---|---|
| wfs/helpers.py:115-119 | `get_urn` formats an absent version with `%s`, so it writes `None` | `urn:ogc:def:crs:epsg::4258` gives `urn:ogc:def:crs:EPSG:None:4258`, which no longer parses | an absent version is written as empty, so the URN parses back to the same CRS | not executed | Crs.UrnWithoutVersionDoesNotRoundTrip | Crs.UrnRoundTripFixed |
| wfs/views.py:553-557 | the running box indexes the aggregate of the next feature type; an empty aggregate is `None`, and the `TypeError` is reported as `MalformedJSONQuery` | a type with features followed by a type without features | a type without features contributes no extent, as the `if result_bbox is None` guard at wfs/views.py:553-554 already allows for the first type | not executed | Extents.AsWrittenRefusesEmptyAfterFilled | Extents.AsWrittenAgrees |
| wfs/views.py:511-516 | the featureid branch of a raw feature type prepares a statement with `id = %s` but executes the unmodified stored query with the precision and number as arguments | a stored query without `%s` and the featureid `name.1` (one argument, no placeholder) | execute the prepared statement | not executed | RawQuery.IdPlanAsWrittenMismatch | RawQuery.IdPlanParameterised |
