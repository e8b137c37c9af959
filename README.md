# open-asset-store: a verified model of the Neo4j repositories

The repository stores assets ("entities"), typed relations between them
("edges") and typed properties attached to either ("entity tags" and "edge
tags") in a Neo4j graph. Two generations of the store live side by side:

- the `asset_store` engine (`src/asset_store/repository/neo4j/`), whose
  `NeoRepository` reconciles every write against what is stored (insert,
  update when fresher, or leave untouched) and buffers one event per
  successful write;
- the older `asset_db` repository (`src/asset_db/repository/neo4j/`), with its
  own duplicate detection, decoders (`extract.py`) and Cypher pattern builder
  (`query.py`), over the record types of `src/asset_db/types/`.

The Dafny project models both, module by module:

| module | file | what it holds |
|---|---|---|
| `Wrappers` | wrappers.dfy | `Option`, `Result` and a prepend helper |
| `Values` | values.dfy | property values and Python dicts as association lists (`Get`, `d[k] = v`, `d.update`) |
| `Flattening` | flatten.dfy | `_flatten` of the record types, as a function and as its loop |
| `Oam` | oam.dfy | the relation and property payloads, their type enums, and a `Library` record standing for the external Open Asset Model functions |
| `Records` | records.dfy | `Entity`, `Edge`, `EntityTag`, `EdgeTag`: discriminators, `label`, `to_dict`, `create` |
| `Codec` | codec.dfy | `_relationship_to_edge`, `_node_to_entity_tag`, `_node_to_edge_tag` of the engine |
| `Extract` | extract.dfy | `node_to_property`, `node_to_entity_tag`, `node_to_edge_tag`, `relationship_to_edge` of `asset_db` |
| `Query` | query.dfy | `query_node_by_property_key_value` |
| `Engine` | engine.dfy | the engine's graph as a value and one function per operation: result, graph afterwards, emitted event |
| `Store` | store.dfy | the engine's `NeoRepository` class, each method proved against its `Engine` function |
| `LegacySpec` | legacy_spec.dfy | the `asset_db` repository's operations as functions on a picture of the database |
| `Legacy` | legacy.dfy | the `asset_db` `NeoRepository` class, each method proved against its `LegacySpec` function |
| `Scenarios` | scenarios.dfy | call sequences on a `Store.NeoRepository`: resubmitting an edge, deleting then looking up |

A stored dict is `seq<(string, Value)>`. A lookup reads the last pair with
its key, so a literal keeps Python's "later key wins". Timestamps are
integers, and `VTime` marks a value that is a Neo4j `DateTime`, so the "not a
DateTime" error paths exist. The clock reading (`now`), the fresh uuid
(`freshId`) and the element id Neo4j assigns (`elementId`) are parameters.
Every raised exception becomes `Err(message)`, with the message the code
raises, or Python's own text for a TypeError or AttributeError. Where the
error would come from the Neo4j driver, which is not part of this model, the
message is a stand-in: `Engine.FindTagsByContent` reports the Cypher syntax
error of an empty WHERE clause as "Invalid input: empty WHERE clause".
A property's attributes are its fields, the keys of its `to_dict()`.

## Model

| member | source | states |
|---|---|---|
| Values.Get | src/asset_store/repository/neo4j/edge.py:20-34 | `d.get(k)` finds a value iff k is a key of the dict |
| Values.Assign | src/asset_db/types/edge.py:25-32 | assigning an existing key changes its value in place, keeps the length and moves no pair |
| Values.GetAppend | src/asset_db/types/edge.py:34-39 | in a dict display followed by a spread, a key of the later part wins, and every other key reads from the earlier part |
| Values.GetPut | src/asset_db/types/edge.py:31-32 | after `flat[k] = v`, k reads v, every other key reads as before, and the keys gain exactly k |
| Values.GetUpdate | src/asset_db/types/edge.py:28-30 | after `flat.update(other)`, each key of other reads other's value, every other key reads as before, and the keys are the union |
| Values.UpdateKeepsUniqueFlat | src/asset_db/types/edge.py:25-32 | updating a flat dict without repeated keys by a flat dict keeps it flat and without repeated keys |
| Values.UpdateOntoFreshKeys | src/asset_store/repository/neo4j/edge.py:53-56 | updating with keys the dict does not yet have appends them in order |
| Values.GetUnique | src/asset_store/repository/neo4j/edge.py:45-51 | in a dict without repeated keys, every pair is what `get` returns for its key |
| Values.NatToString | src/asset_db/repository/neo4j/query.py:16 | the f-string text of a natural number (the bare `confidence`) is a non-empty string of decimal digits |
| Flattening.Leaves | src/asset_db/types/edge.py:25-32 | the reference order of `_flatten` (every non-dict pair, depth first) contains no dict value |
| Flattening.PairLeaves | src/asset_db/types/edge.py:27-32 | one item contributes only non-dict values |
| Flattening.FlattenGet | src/asset_db/types/edge.py:25-32 | `_flatten(d)[k]` is the value of the LAST leaf with key k, nested or not, and its keys are exactly the leaves' keys |
| Flattening.FlattenIsFlat | src/asset_db/types/edge.py:25-32 | `_flatten` never leaves a dict-valued entry or a repeated key |
| Flattening.FlattenOfFlat | src/asset_db/types/entity.py:18-25 | `_flatten` is the identity on a flat dict without repeated keys |
| Flattening.LeavesOfFlat | src/asset_db/types/entity_tag.py:20-27 | the leaves of a flat dict are the dict itself |
| Flattening.FlattenIdempotent | src/asset_db/types/edge_tag.py:20-27 | flattening twice is flattening once |
| Flattening.FlattenDict | src/asset_db/types/edge.py:25-32 | the loop over `d.items()` (update on a dict value, item assignment otherwise) computes `_flatten(d)` |
| Flattening.AbsorbItem | src/asset_db/types/edge.py:28-32 | one loop step: a dict value is flattened and merged, any other value is assigned |
| Oam.ParseRelationType | src/asset_store/repository/neo4j/edge.py:37 | `RelationType(s)` succeeds only on the enum value of the member it returns |
| Oam.ParsePropertyType | src/asset_store/repository/neo4j/entity_tag.py:44 | `PropertyType(s)` succeeds only on the enum value of the member it returns |
| Oam.RelationTypeRoundTrip | src/asset_db/repository/neo4j/extract.py:142-145 | the `etype` a relation is stored with parses back to its relation type |
| Oam.PropertyTypeRoundTrip | src/asset_db/repository/neo4j/extract.py:84 | the `ttype` a property is stored with parses back to its property type |
| Records.UpperIdempotent | src/asset_db/types/edge.py:20-22 | `Edge.label` is upper case, so upper-casing it again changes nothing |
| Records.FoldUpper | src/asset_store/repository/neo4j/edge.py:188-196 | the label filter's casefold matches the upper-case relationship type against its own relation label |
| Records.SpreadGet | src/asset_db/types/edge.py:34-39 | `{header, **_flatten(payload)}`: a payload key wins over a header key, other header keys stay, and the result is flat without repeated keys |
| Records.EdgeToDictGet | src/asset_db/types/edge.py:24-39 | `Edge.to_dict()` holds created_at, updated_at and etype (`relation_type.value`) unless the relation overrides them, every flattened relation key, and no id |
| Records.TagToDictGet | src/asset_db/types/entity_tag.py:19-36 | a tag's `to_dict()` holds `tag_id`, the owner id key, both timestamps and `ttype` (`property_type.value`), then every flattened property key, which wins on collision |
| Records.EntityToDictGet | src/asset_db/types/entity.py:17-33 | `Entity.to_dict()` holds `entity_id`, both timestamps and `etype`, then the flattened asset keys, which win on collision |
| Records.CreatedEdge | src/asset_db/types/edge.py:41-50 | `Edge.create` keeps the relation and both entities, takes a fresh id, derives `etype` from the relation type, and stamps both timestamps with the clock |
| Records.CreatedTag | src/asset_db/types/entity_tag.py:38-46 | `EntityTag.create` / `EdgeTag.create` keep the owner and property, take a fresh id, derive `ttype`, and stamp both timestamps with the clock |
| Records.CreatedEntity | src/asset_db/types/entity.py:35-42 | `Entity.create` keeps the asset, takes a fresh id, derives `etype`, and encodes `entity_id`, `created_at` and `updated_at` as the id and the clock unless an asset key overrides them |
| Codec.NodeGet | src/asset_store/repository/neo4j/edge.py:47-49 | `rel.get(k)` is None exactly when the key is missing or holds None |
| Codec.DeclaredGet | src/asset_store/repository/neo4j/edge.py:45-51 | the declared-field loop sets exactly the declared keys whose stored value is not None |
| Codec.ExtrasGet | src/asset_store/repository/neo4j/edge.py:53-56 | the `extra` comprehension copies exactly the node's `extra_*` keys with their values |
| Codec.ProjectGet | src/asset_store/repository/neo4j/edge.py:44-56 | the decoded payload holds every `extra_*` key (overriding a declared one), every declared non-None field, and nothing else |
| Codec.ProjectNode | src/asset_store/repository/neo4j/edge.py:45-56 | the loops of the decoder build that payload |
| Codec.RelationshipToEdge | src/asset_store/repository/neo4j/edge.py:18-67 | decoding succeeds iff `edge_id` is present, both timestamps are DateTimes, `etype` names a relation type and the library knows its class |
| Codec.RelationshipToEdgeFields | src/asset_store/repository/neo4j/edge.py:58-67 | a decoded edge carries the stored id, timestamps and type, the given endpoints, and exactly the declared non-None and `extra_*` payload keys |
| Codec.DecodeRelationship | src/asset_store/repository/neo4j/edge.py:18-67 | `_relationship_to_edge` step by step computes the decoding function |
| Codec.NodeToTag | src/asset_store/repository/neo4j/entity_tag.py:17-73 | a missing `tag_id` or owner id raises its message; a decoded tag has the stored id, owner, timestamps and property type |
| Codec.DecodeTagNode | src/asset_store/repository/neo4j/edge_tag.py:16-63 | `_node_to_edge_tag` / `_node_to_entity_tag` step by step compute the decoding function |
| Codec.NodeToTagPayload | src/asset_store/repository/neo4j/entity_tag.py:47-62 | a decoded property holds exactly the declared non-None fields and the `extra_*` keys |
| Extract.Pick | src/asset_db/repository/neo4j/extract.py:36-54 | each listed keyword takes the node's value under its key, in order |
| Extract.NodeToProperty | src/asset_db/repository/neo4j/extract.py:24-56 | `node_to_property` succeeds iff the type is one of the four handled ones, otherwise raises "Unsupported property type"; the type is kept; a DNS record is rebuilt with its header from the `header_*` keys |
| Extract.Construct | src/asset_db/repository/neo4j/extract.py:37-45 | a dataclass keyword call succeeds iff every keyword names a field, and otherwise raises TypeError naming the first unknown keyword |
| Extract.NodeToPropertyAsWritten | src/asset_db/repository/neo4j/extract.py:24-56 | `node_to_property` as written agrees with the corrected decoder except on SourceProperty, where it raises |
| Extract.SourceDecodedAsSimple | src/asset_db/repository/neo4j/extract.py:41-45 | as written, the SourceProperty branch raises TypeError on the unexpected keyword `name`; the corrected decoder keeps the SourceProperty type and reads the `name` and `confidence` keys |
| Extract.OwnerStub | src/asset_db/repository/neo4j/extract.py:69 | the id-only owner the decoder attaches carries the stored owner id |
| Extract.NodeToTag | src/asset_db/repository/neo4j/extract.py:59-124 | a missing `tag_id` or owner id raises its message; a decoded tag has the stored id, an id-only owner, the stored `created_at` and the decoded property; its own `updated_at` stays unset (for edge tags the decoder writes the stored value to `last_seen`, which the tag record does not carry) |
| Extract.DecodeTag | src/asset_db/repository/neo4j/extract.py:59-88 | `node_to_entity_tag` / `node_to_edge_tag` field by field compute the decoding function |
| Extract.NodeToTagAsWritten | src/asset_db/repository/neo4j/extract.py:59-91 | as written, `EntityTag()` / `EdgeTag()` without arguments raise before any key is read |
| Extract.RelationshipToEdge | src/asset_db/repository/neo4j/extract.py:127-192 | decoding succeeds iff both timestamps are DateTimes and `etype` names one of the five handled relation types; the id is the element id and the name comes from `label` |
| Extract.DecodeRelationship | src/asset_db/repository/neo4j/extract.py:127-192 | `relationship_to_edge` step by step computes the decoding function |
| Extract.RelationshipToEdgeAsWritten | src/asset_db/repository/neo4j/extract.py:127-128 | as written, `Edge()` without arguments raises before any key is read |
| Extract.SrvWeightAsWritten | src/asset_db/repository/neo4j/extract.py:170-178 | as written, rebuilding the SRV relation raises TypeError on the unexpected keyword `wright`; with `weight` the call succeeds and the weight is the stored one |
| Extract.EdgeRoundTrip | src/asset_db/repository/neo4j/extract.py:127-145 | a relationship written with `Edge.to_dict()` decodes back to the element id, the same timestamps and relation type, while the decoder as written raises on it |
| Extract.TagRoundTrip | src/asset_db/repository/neo4j/extract.py:59-88 | a tag node written with `to_dict()` decodes back to the same id, owner id, creation time and property type, while the decoder as written raises on it |
| Query.QueryKeys | src/asset_db/repository/neo4j/query.py:11-18 | the corrected pattern matches each variant on the very keys its property is stored under |
| Query.QueryKeysAsWritten | src/asset_db/repository/neo4j/query.py:11-18 | the keys as written are the corrected ones for DNS records and simple properties; Source fills its `name` key from the attribute `source`; Vuln is matched on `vuln_id` rather than the key `id` of the value it renders, and fills `desc` from the attribute `description` |
| Query.PairsOf | src/asset_db/repository/neo4j/query.py:12-18 | each pair renders the property's value; `confidence` is bare, every other value quoted |
| Query.QueryPairsAsWritten | src/asset_db/repository/neo4j/query.py:11-21 | an unhandled variant raises "asset type not supported"; a handled one raises AttributeError on the first of its two attributes the property lacks, and otherwise gets two pairs keyed as written with the attributes' values (`confidence` bare, others quoted), the corrected pairs for DNS records and simple properties |
| Query.QueryPairs | src/asset_db/repository/neo4j/query.py:11-21 | a handled variant gets its two fixed keys with the property's values (`confidence` bare, others quoted); any other raises "asset type not supported" |
| Query.QueryNodeByPropertyKeyValue | src/asset_db/repository/neo4j/query.py:9-23 | the pattern as written: `(varname:label {` ... `})` when its pairs can be built, and otherwise their error ("asset type not supported" for an unhandled variant, AttributeError for a missing attribute) |
| Query.IntendedQueryNode | src/asset_db/repository/neo4j/query.py:9-23 | the pattern with the corrected keys: `(varname:label {` ... `})` for a handled variant and "asset type not supported" otherwise |
| Query.QueryNodeBody | src/asset_db/repository/neo4j/query.py:12-18 | in both patterns, between the prefix and the closing `})` sit exactly the rendered pairs |
| Query.QueryNodesAgree | src/asset_db/repository/neo4j/query.py:11-14 | for DNS records and simple properties, the pattern as written, when it can be built, is the corrected one |
| Query.StoredTagMatches | src/asset_db/repository/neo4j/query.py:11-18 | a tag node written from a property matches that property's corrected pattern |
| Query.StoredVulnTagMissed | src/asset_db/repository/neo4j/query.py:17-18 | as written, a stored Vuln tag never matches its own pattern: without a `description` attribute it raises AttributeError, and otherwise the pattern asks for `vuln_id` |
| Query.StoredSourceTagNeedsName | src/asset_db/repository/neo4j/query.py:15-16 | as written, a stored Source tag matches its own pattern only when its `name` is the text of its `source` |
| Engine.FirstEdgeRow | src/asset_store/repository/neo4j/edge.py:268-278 | the lookup finds a relationship with that id between stored entities, and finds none only when there is none |
| Engine.FindEdgeById | src/asset_store/repository/neo4j/edge.py:268-307 | the lookup succeeds iff a relationship with that id joins two stored entities, and returns it with that id and those entities; otherwise "no edge was found" |
| Engine.AdjacentMembers | src/asset_store/repository/neo4j/edge.py:167-266 | an edge is listed iff its relationship touches the entity on the queried side, is not older than `since`, and some label casefold-equals its type (any type when no label is given) |
| Engine.Adjacent | src/asset_store/repository/neo4j/edge.py:167-266 | every edge listed touches the entity on the queried side and is updated since `since`, and the list is no longer than the relationships |
| Engine.AdjacentNone | src/asset_store/repository/neo4j/edge.py:214-215 | no relationship passing the filters gives `[]`, not an error |
| Engine.LabelOfRelationMatches | src/asset_store/repository/neo4j/edge.py:188-196 | a relationship written under a relation's upper-case label passes the filter for that label |
| Engine.FirstDuplicate | src/asset_store/repository/neo4j/edge.py:73-81 | the scan returns the FIRST outgoing edge to the same entity whose relation `equals` the incoming one, and nothing only when there is none |
| Engine.FindExistingEdge | src/asset_store/repository/neo4j/edge.py:69-81 | an explicit id is looked up and its error propagates; without an id, the result is the first duplicate among the outgoing edges of `from`, and the scan never fails |
| Engine.SetById | src/asset_store/repository/neo4j/edge.py:140-150 | the corrected update rewrites exactly the relationships carrying the edge id, keeping endpoints and type |
| Engine.SetByLabel | src/asset_store/repository/neo4j/edge.py:140-150 | the update as written rewrites every relationship of that type between the two entities |
| Engine.SetByLabelClobbersSibling | src/asset_store/repository/neo4j/edge.py:145-146 | as written, a sibling relationship takes the updated edge's id and relation; by id it is left alone |
| Engine.RemoveEdgeRows | src/asset_store/repository/neo4j/edge.py:309-320 | the delete removes exactly the relationships with that id |
| Engine.CreateEdge | src/asset_store/repository/neo4j/edge.py:84-161 | a failure writes nothing and emits nothing; entities and tag nodes are never changed |
| Engine.DeleteEdge | src/asset_store/repository/neo4j/edge.py:309-320 | the result is the lookup by id; a failure writes nothing; entities and tag nodes are never changed |
| Engine.HydrateTag | src/asset_store/repository/neo4j/entity_tag.py:17-73 | a stored tag node reads back with its id, property and kind |
| Engine.FirstTagRow | src/asset_store/repository/neo4j/entity_tag.py:180-193 | the tag lookup finds a node with that id, and none only when there is none |
| Engine.FindTagByIdAsWrittenFails | src/asset_store/repository/neo4j/entity_tag.py:180-193 | as written the lookup by id raises even for a stored tag the intended lookup finds |
| Engine.FindTagById | src/asset_store/repository/neo4j/entity_tag.py:180-193 | without a node carrying the id the lookup raises "not found"; a tag found has that id, the kind asked for and a stored node's property |
| Engine.FindExistingTag | src/asset_store/repository/neo4j/entity_tag.py:75-82 | with an id it is the lookup by id; otherwise it is the first tag of the content lookup, or none when that finds none, or its error. A tag found has the kind and property type of the input and comes from a matching row; none is found only when no row matches |
| Engine.RowMatchesContent | src/asset_store/repository/neo4j/entity_tag.py:151-178 | a node matches iff it carries the property type's label and equals `prop.to_dict()` on every key |
| Engine.DecodeMatchesSound | src/asset_store/repository/neo4j/edge_tag.py:169-196 | the matching rows are exactly the tags found: each one found is a decoded matching node, every matching node is listed, the lookup fails iff some matching node fails to decode, and no matching node gives `[]` |
| Engine.FindTagsByContent | src/asset_store/repository/neo4j/entity_tag.py:151-178 | a property with no attributes to match raises; every tag found has the kind asked for and the property type of the input |
| Engine.SetTagRows | src/asset_store/repository/neo4j/entity_tag.py:120-141 | `SET n = $props` rewrites exactly the nodes with the tag id |
| Engine.RemoveTagRows | src/asset_store/repository/neo4j/entity_tag.py:238-249 | the delete removes exactly the tag nodes with that id |
| Engine.OwnedRows | src/asset_store/repository/neo4j/entity_tag.py:195-205 | the owner query keeps exactly the owner's nodes updated since `since` |
| Engine.DecodeOwned | src/asset_store/repository/neo4j/edge_tag.py:209-230 | every tag decoded has the kind asked for, a property, and a name passing the filter |
| Engine.DecodeOwnedFilter | src/asset_store/repository/neo4j/entity_tag.py:210-230 | a tag is kept iff it is the decoding of an owned node whose name passes the exact-name filter; with no names every owned node is kept |
| Engine.CreateEdgeOutcome | src/asset_store/repository/neo4j/edge.py:84-161 | `create_edge` either fails without writing or emitting, or returns the edge its one event reports; untouched writes nothing, insert adds one relationship |
| Engine.TaxonomyGate | src/asset_store/repository/neo4j/edge.py:86-95 | with the taxonomy enforced, a refused relation raises its message before any lookup, write or event |
| Engine.CreateEdgeInserts | src/asset_store/repository/neo4j/edge.py:101-127 | without an existing edge, the new edge under the fresh id with the given relation and endpoints is written, found by its id afterwards, and reported by one EdgeInserted |
| Engine.ResubmitIsUntouched | src/asset_store/repository/neo4j/edge.py:160-161 | submitting the same relation again returns the stored edge, writes nothing and emits EdgeUntouched (given `equals` reflexive and a relation not fresher than itself) |
| Engine.CreateEdgeUpdates | src/asset_store/repository/neo4j/edge.py:130-158 | a fresher relation keeps the id, `created_at` and both endpoints, takes `override_with`, stamps `updated_at` with now, emits EdgeUpdated(old, new), and leaves every other edge as it was |
| Engine.CreateEdgeUntouched | src/asset_store/repository/neo4j/edge.py:160-161 | an existing edge whose relation is not fresher is returned as stored, writes nothing and emits EdgeUntouched |
| Engine.DeleteEdgeRemoves | src/asset_store/repository/neo4j/edge.py:309-320 | a missing id fails before any write; otherwise the pre-deletion edge is returned and reported, it can no longer be found, and every other relationship stays |
| Engine.CreateTagOutcome | src/asset_store/repository/neo4j/entity_tag.py:85-145 | `create_*_tag` fails without writing or emitting, or returns the tag its one event reports; an untouched tag writes nothing; a missing prop raises "malformed entity tag"; entities, edges and the other tag kind stay |
| Engine.CreateTag | src/asset_store/repository/neo4j/entity_tag.py:85-145 | a tag without property raises "malformed entity tag"; a failure writes nothing; entities, edges and the other tag kind are never changed |
| Engine.CreateTagUpdates | src/asset_store/repository/neo4j/entity_tag.py:120-141 | a fresher property keeps the id, `created_at`, owner and kind, takes `override_with`, stamps `updated_at` with now, rewrites only the nodes with that id, and emits TagUpdated(old, new) |
| Engine.CreateTagUntouched | src/asset_store/repository/neo4j/entity_tag.py:144-145 | an existing tag whose property is not fresher is returned as stored, writes nothing and emits TagUntouched |
| Engine.PropertyTag | src/asset_store/repository/neo4j/entity_tag.py:148-149 | the tag built by `create_*_property` has no id, the given owner and property, and that property's type |
| Engine.CreateTagInserts | src/asset_store/repository/neo4j/entity_tag.py:92-117 | a new tag takes the fresh id, the input's owner and property, and is then stored under that id |
| Engine.DeleteTagRemoves | src/asset_store/repository/neo4j/edge_tag.py:238-250 | a missing id fails before any write; otherwise the pre-deletion tag is returned and reported and can no longer be found, and the other nodes stay |
| Engine.DeleteTag | src/asset_store/repository/neo4j/entity_tag.py:238-249 | the result is the lookup by id; a failure writes nothing; entities, edges and the other tag kind are never changed |
| Engine.FindTagsWithoutNodes | src/asset_store/repository/neo4j/entity_tag.py:195-236 | an owner without tag nodes raises for entity tags and gives `[]` for edge tags |
| Engine.FindTagsFilter | src/asset_store/repository/neo4j/edge_tag.py:198-236 | a listed tag is the decoding of a node of that owner, updated since `since`, whose name passes the filter, and every such node is listed; an entity-tag listing is never empty |
| Engine.FindTags | src/asset_store/repository/neo4j/entity_tag.py:195-236 | an entity-tag listing is never empty; every tag listed has the kind asked for, a property, and a name passing the filter |
| Store.LabelMatches | src/asset_store/repository/neo4j/edge.py:188-196 | the label loop finds a match iff some label casefold-equals the relationship type |
| Store.NeoRepository.constructor | src/asset_store/repository/neo4j/neo_repository.py:49-60 | a new repository has an empty event buffer, `enforce_taxonomy` true and `emit_events` false unless given |
| Store.NeoRepository.Emit | src/asset_store/repository/neo4j/neo_repository.py:69-71 | `_emit` appends the event iff events are enabled |
| Store.NeoRepository.FlushEvents | src/asset_store/repository/neo4j/neo_repository.py:82-85 | `flush_events` returns the buffer in emission order and leaves it empty |
| Store.NeoRepository.FindEdgeById | src/asset_store/repository/neo4j/edge.py:268-307 | the lookup returns the specified edge or "no edge was found" |
| Store.NeoRepository.Adjacent | src/asset_store/repository/neo4j/edge.py:167-266 | the record loop computes the filtered adjacency list |
| Store.NeoRepository.IncomingEdges | src/asset_store/repository/neo4j/neo_repository.py:139-145 | the facade returns `incoming_edges` of the module unchanged |
| Store.NeoRepository.OutgoingEdges | src/asset_store/repository/neo4j/neo_repository.py:147-153 | the facade returns `outgoing_edges` of the module unchanged |
| Store.NeoRepository.FindExistingEdge | src/asset_store/repository/neo4j/edge.py:69-81 | the lookup by id or by scan computes the specified existing edge |
| Store.NeoRepository.CreateEdge | src/asset_store/repository/neo4j/edge.py:84-161 | returns the specified result, leaves the specified graph, and appends the specified event when events are enabled |
| Store.NeoRepository.CreateRelation | src/asset_store/repository/neo4j/edge.py:163-165 | `create_relation` is `create_edge` of an edge without id or timestamps |
| Store.NeoRepository.DeleteEdge | src/asset_store/repository/neo4j/edge.py:309-320 | returns the specified result and graph and appends EdgeDeleted when events are enabled |
| Store.NeoRepository.FindOwner | src/asset_store/repository/neo4j/entity_tag.py:22-29 | the owner lookup of the tag decoders returns the stored entity or edge |
| Store.NeoRepository.HydrateTag | src/asset_store/repository/neo4j/entity_tag.py:17-73 | decoding a stored node computes the specified tag |
| Store.NeoRepository.FindTagById | src/asset_store/repository/neo4j/entity_tag.py:180-193 | the intended lookup returns the stored tag or "the entity tag with ID ... was not found" |
| Store.NeoRepository.FindTagsByContent | src/asset_store/repository/neo4j/entity_tag.py:151-178 | the content loop computes the specified matching tags |
| Store.NeoRepository.DecodeOwnedRows | src/asset_store/repository/neo4j/edge_tag.py:209-230 | the owner loop decodes the nodes and keeps the listed names |
| Store.NeoRepository.FindTags | src/asset_store/repository/neo4j/entity_tag.py:195-236 | the owner lookup computes the specified tags or error |
| Store.NeoRepository.FindExistingTag | src/asset_store/repository/neo4j/entity_tag.py:75-82 | the lookup by id, or the first content match whoever owns it, computes the specified existing tag |
| Store.NeoRepository.SetTagRowsOf | src/asset_store/repository/neo4j/edge_tag.py:130-142 | writes the tag nodes of one kind and nothing else |
| Store.NeoRepository.CreateTag | src/asset_store/repository/neo4j/edge_tag.py:83-148 | returns the specified result, leaves the specified graph, and appends the specified event when events are enabled |
| Store.NeoRepository.CreateEntityProperty | src/asset_store/repository/neo4j/entity_tag.py:148-149 | `create_entity_property` is `create_entity_tag` of a tag holding the entity and property |
| Store.NeoRepository.CreateEdgeProperty | src/asset_store/repository/neo4j/edge_tag.py:151-152 | `create_edge_property` is `create_edge_tag` of a tag holding the edge and property |
| Store.NeoRepository.DeleteTag | src/asset_store/repository/neo4j/entity_tag.py:238-249 | returns the specified result and graph and appends the deletion event when events are enabled |
| Scenarios.ResubmitEdge | src/asset_store/repository/neo4j/neo_repository.py:69-85 | inserting an edge and submitting it again gives the same id, one stored relationship more, and the flush returns EdgeInserted then EdgeUntouched; a second flush returns nothing |
| Scenarios.DeleteThenFind | src/asset_store/repository/neo4j/edge.py:268-320 | after a delete the edge is no longer found, and the flush returns exactly one EdgeDeleted holding it |
| LegacySpec.GatherSpec | src/asset_db/repository/neo4j/neo_repository.py:133-165 | the record loop succeeds iff no record raises, then keeps exactly the taken values, and otherwise fails with the first record that raises |
| LegacySpec.AdjacentPicks | src/asset_db/repository/neo4j/neo_repository.py:167-211 | each relationship is classified on its own by the query and the filters |
| LegacySpec.Adjacent | src/asset_db/repository/neo4j/neo_repository.py:117-211 | a listing is never empty, and no passing relationship gives "no edge found" |
| LegacySpec.AdjacentPickSound | src/asset_db/repository/neo4j/neo_repository.py:195-205 | a kept edge is that relationship read in the asked direction, and `outgoing_edges` never raises on one |
| LegacySpec.AdjacentSpec | src/asset_db/repository/neo4j/neo_repository.py:117-211 | a listing is never empty and holds exactly the relationships of the entity passing the since and label filters that decode (each such one is listed); `outgoing_edges` fails only with "no edge found" |
| LegacySpec.AdjacentComplete | src/asset_db/repository/neo4j/neo_repository.py:133-160 | every relationship passing the filters that decodes is in the listing |
| LegacySpec.FirstRel | src/asset_db/repository/neo4j/neo_repository.py:270-302 | the lookup finds a relationship with that element id, and none only when there is none |
| LegacySpec.FindEdgeById | src/asset_db/repository/neo4j/neo_repository.py:270-302 | without a relationship carrying the id the lookup raises "no edge was found"; otherwise the edge has that id and both endpoints set |
| LegacySpec.EdgeSeen | src/asset_db/repository/neo4j/neo_repository.py:92-99 | `edge_seen` sets `updated_at` on exactly the relationships with that element id |
| LegacySpec.FirstSame | src/asset_db/repository/neo4j/neo_repository.py:101-115 | the scan returns an outgoing edge to the same entity with an `==` relation, and nothing only when there is none |
| LegacySpec.GetDuplicateEdge | src/asset_db/repository/neo4j/neo_repository.py:101-115 | the scan changes neither entities nor tag nodes nor the number or endpoints of the relationships, and without both endpoints finds nothing |
| LegacySpec.DuplicateIsBumped | src/asset_db/repository/neo4j/neo_repository.py:101-115 | a duplicate found comes back with `updated_at` bumped, only its relationship changed, and only in `updated_at` |
| LegacySpec.FirstRelBumped | src/asset_db/repository/neo4j/neo_repository.py:108-112 | re-reading after `edge_seen` gives the same relationship with `updated_at` replaced |
| LegacySpec.CreateEdgeRejects | src/asset_db/repository/neo4j/neo_repository.py:213-229 | a missing relation or endpoint, or a relation the taxonomy refuses, raises before any lookup or write |
| LegacySpec.InsertEdge | src/asset_db/repository/neo4j/neo_repository.py:241-266 | a missing endpoint gives "no records returned from the query" and writes nothing; otherwise at most one relationship is added and nothing else changes |
| LegacySpec.CreateEdge | src/asset_db/repository/neo4j/neo_repository.py:213-268 | `create_edge` changes only the relationships, and adds at most one |
| LegacySpec.CreateEdgeDuplicate | src/asset_db/repository/neo4j/neo_repository.py:231-236 | a duplicate is returned with `updated_at` the edge's or now, and only its `updated_at` is written |
| LegacySpec.InsertEdgeSpec | src/asset_db/repository/neo4j/neo_repository.py:241-266 | the CREATE appends exactly one relationship, typed with the edge's upper-case label, whose `etype` property is the relation type unless the payload carries its own; the result has the element id and the input's endpoints |
| LegacySpec.CreateEdgeInserts | src/asset_db/repository/neo4j/neo_repository.py:231-266 | without a duplicate, one relationship is appended with `created_at` and `updated_at` as given or now, and the tag nodes stay |
| LegacySpec.CreateEdgeKeepsValid | src/asset_db/repository/neo4j/neo_repository.py:213-268 | `create_edge` keeps every relationship between stored entities: the bump moves no endpoint and the CREATE requires both endpoints |
| LegacySpec.Select | src/asset_db/repository/neo4j/neo_repository.py:312-326 | a MATCH returns exactly the nodes that satisfy it |
| LegacySpec.DecodePicks | src/asset_db/repository/neo4j/neo_repository.py:328-336 | the content loop decodes each node on its own |
| LegacySpec.DecodeAll | src/asset_db/repository/neo4j/neo_repository.py:328-340 | a content listing is never empty, each tag is decoded from a matched node, and every matched node is listed |
| LegacySpec.FindTagsByContent | src/asset_db/repository/neo4j/neo_repository.py:312-340 | a tag without property, or one the pattern builder does not handle, raises "asset type not supported"; a pattern that cannot be built raises its error; a listing is never empty and has the kind asked for |
| LegacySpec.FindTagsByContentSpec | src/asset_db/repository/neo4j/neo_repository.py:312-340 | the pattern as written failing is the lookup's error; otherwise without a matching node the lookup raises, and each tag is decoded from a node matching the pattern as written and updated since `since`, and every such node is listed |
| LegacySpec.VulnContentNeverFound | src/asset_db/repository/neo4j/neo_repository.py:312-340 | as written, a Vuln property looked up by content raises whenever no stored node has a `vuln_id` key |
| LegacySpec.NamePicks | src/asset_db/repository/neo4j/neo_repository.py:450-468 | the owner loop classifies each node on its own |
| LegacySpec.DecodeNamed | src/asset_db/repository/neo4j/neo_repository.py:450-473 | an owner listing is never empty, each tag is decoded from a node and passes the name filter, and every node passing it is listed |
| LegacySpec.NamePicksSound | src/asset_db/repository/neo4j/neo_repository.py:450-468 | each tag the owner loop keeps decodes from a node and passes the name filter |
| LegacySpec.NamePicksListed | src/asset_db/repository/neo4j/neo_repository.py:450-468 | every node the owner loop sees whose name passes is listed |
| LegacySpec.FindTags | src/asset_db/repository/neo4j/neo_repository.py:435-473 | a listing is never empty; each tag has the kind asked for, a property and a name passing the filter |
| LegacySpec.FindTagsSpec | src/asset_db/repository/neo4j/neo_repository.py:435-473 | an owner without nodes raises; each tag is decoded from a node of that owner updated since `since` whose name is listed when names are given, and every such node is listed |
| LegacySpec.SelectedListed | src/asset_db/repository/neo4j/neo_repository.py:312-340 | a property holding for every selected node holds for every node that satisfies the MATCH |
| LegacySpec.FirstOwned | src/asset_db/repository/neo4j/neo_repository.py:353-365 | the content scan takes a match owned by the same entity, and none only when there is none |
| LegacySpec.ExistingTag | src/asset_db/repository/neo4j/neo_repository.py:342-365 | with an explicit id the existing tag keeps that id and its `created_at`; any existing tag has the kind asked for and `updated_at` now |
| LegacySpec.SetTagNodes | src/asset_db/repository/neo4j/neo_repository.py:371-389 | `SET n = $props` rewrites exactly the nodes with the tag id |
| LegacySpec.HasTagId | src/asset_db/repository/neo4j/neo_repository.py:373-387 | the SET returns a record iff a node carries the tag id |
| LegacySpec.MismatchNeverRaised | src/asset_db/repository/neo4j/neo_repository.py:342-369 | the existing tag always carries the input's property, owner and now, so the type-mismatch check never fires |
| LegacySpec.ExistingTagSource | src/asset_db/repository/neo4j/neo_repository.py:342-365 | with an explicit id the existing tag is the input; otherwise the pattern as written could be built and the tag comes from a stored node matching it and owned by the same entity |
| LegacySpec.CreateTagUpdates | src/asset_db/repository/neo4j/neo_repository.py:371-389 | an update rewrites every node with the tag id to its `to_dict()` and returns it decoded; without such a node it raises and writes nothing |
| LegacySpec.CreateTagInserts | src/asset_db/repository/neo4j/neo_repository.py:391-418 | a new tag takes a fresh id, the clock for unset timestamps and the given owner, and is appended to its kind's nodes alone |
| LegacySpec.CreateTag | src/asset_db/repository/neo4j/neo_repository.py:342-418 | `create_*_tag` changes neither relationships nor entities nor the other kind's nodes, and adds at most one node |
| LegacySpec.PropertyTag | src/asset_db/repository/neo4j/neo_repository.py:475-476 | the tag built by `create_*_property` has no id or timestamps, the given property, and that property's type |
| Legacy.LegacyRepository.constructor | src/asset_db/repository/neo4j/neo_repository.py:33-35 | a repository opens over the given database |
| Legacy.LegacyRepository.Adjacent | src/asset_db/repository/neo4j/neo_repository.py:117-211 | the record loop computes the specified adjacency result |
| Legacy.LegacyRepository.IncomingEdges | src/asset_db/repository/neo4j/neo_repository.py:117-165 | `incoming_edges` computes the specified result |
| Legacy.LegacyRepository.OutgoingEdges | src/asset_db/repository/neo4j/neo_repository.py:167-211 | `outgoing_edges` computes the specified result |
| Legacy.LegacyRepository.FindEdgeById | src/asset_db/repository/neo4j/neo_repository.py:270-302 | the lookup returns the first relationship with that element id, decoded with id-only endpoints |
| Legacy.LegacyRepository.EdgeSeen | src/asset_db/repository/neo4j/neo_repository.py:92-99 | the relationships become the specified bumped ones |
| Legacy.LegacyRepository.GetDuplicateEdge | src/asset_db/repository/neo4j/neo_repository.py:101-115 | the scan returns the specified duplicate and leaves the specified database |
| Legacy.LegacyRepository.CreateEdge | src/asset_db/repository/neo4j/neo_repository.py:213-268 | returns the specified result and leaves the specified database |
| Legacy.LegacyRepository.TagNodesOf | src/asset_db/repository/neo4j/neo_repository.py:312-326 | reads the tag nodes of one kind |
| Legacy.LegacyRepository.DecodeNodes | src/asset_db/repository/neo4j/neo_repository.py:328-340 | the content loop computes the specified decoding |
| Legacy.LegacyRepository.FindTagsByContent | src/asset_db/repository/neo4j/neo_repository.py:582-610 | the content lookup computes the specified result |
| Legacy.LegacyRepository.DecodeNamedNodes | src/asset_db/repository/neo4j/neo_repository.py:446-473 | the owner loop computes the specified decoding and filter |
| Legacy.LegacyRepository.FindTags | src/asset_db/repository/neo4j/neo_repository.py:612-650 | the owner lookup computes the specified result |
| Legacy.LegacyRepository.FindExistingTag | src/asset_db/repository/neo4j/neo_repository.py:486-509 | computes the specified existing tag |
| Legacy.LegacyRepository.SetTagNodesOf | src/asset_db/repository/neo4j/neo_repository.py:515-533 | writes the tag nodes of one kind and nothing else |
| Legacy.LegacyRepository.CreateTag | src/asset_db/repository/neo4j/neo_repository.py:342-418 | returns the specified result and leaves the specified database |
| Legacy.LegacyRepository.CreateEntityProperty | src/asset_db/repository/neo4j/neo_repository.py:475-476 | `create_entity_property` is `create_entity_tag` of a tag holding only the property |
| Legacy.LegacyRepository.CreateEdgeProperty | src/asset_db/repository/neo4j/neo_repository.py:564-565 | `create_edge_property` is `create_edge_tag` of a tag holding only the property |

## Left out

- The Neo4j driver, sessions and Cypher text (`execute_query`, `Result.single`, connection set-up and close). Each query is a lookup or an update on in-memory sequences. The update by label of edge.py:145 is modelled on its own (`Engine.SetByLabel`) to exhibit the first finding below; `create_edge` itself is modelled with the corrected update by id.
- The Open Asset Model library (`equals`, `is_fresher_than`, `override_with`, `label`, `name`, `valid_relationship`, `get_relation_by_type` / `get_property_by_type` with `describe_type`, `from_dict`). Its code is outside the repository, so it is a `Library` value of functions passed in. `from_dict(cls, d)` keeps `d` as the payload.
- `uuid4()`, `datetime.now()`, the element id Neo4j assigns, and `DateTime.to_native()`. The first three are parameters. A timestamp is an integer, and `VTime` marks a DateTime.
- The `since` filters: modelled as `updated_at >= since` on integers, not as `localDateTime(...)` text.
- `str.upper()` and `str.casefold()` are modelled over ASCII letters only.
- src/asset_store/repository/neo4j/entity.py is not part of this model. Entities in the engine are a map from id to entity, and `find_entity_by_id` is a lookup in it that fails on a missing id. In the `asset_db` store, entity nodes are a set of ids.
- Concurrency: the lookup-then-write race between two upserts. The model is single-threaded.
- DeleteEdge: the doubled braces of the `delete_edge` query text (edge.py:314) are not modelled; `Engine.DeleteEdge` and `Store.NeoRepository.DeleteEdge` model the intended removal of the relationship with that id.
- The engine keeps relationships and tag nodes as typed rows. Its reads therefore do not go through the `Codec` decoders. Those are modelled and proved on their own against stored dicts. One consequence: `Engine.Adjacent` and `Engine.AdjacentMembers` cannot show that the two adjacency loops of edge.py treat a relationship that fails to decode differently. `incoming_edges` re-raises the error (edge.py:207-210), while `outgoing_edges` skips that record (edge.py:255-259).
- Engine.CreateTag: "no records returned from the query" after an entity-tag update is not modelled, because entity_tag.py does not check the returned record there (edge_tag.py:141 does). A missing property gives "malformed entity tag" for both kinds, as both files raise it.
- Engine adjacency: a relationship whose endpoint entity is not stored is skipped. With a well-formed graph (`Engine.Valid`) there is none, so the raise of the source on a failed endpoint lookup is not reached.
- In the `asset_db` store, `find_entity_tag_by_id`, `find_edge_tag_by_id`, `delete_edge`, `delete_entity_tag` and `delete_edge_tag` are not modelled. Their engine counterparts are.
- The check that no tag survives decoding in the legacy content lookups ("no entity tag found" after the loop) is unreachable in the model, because every matched node either yields a tag or raises. The model keeps the "no records" error only.
- In the legacy `create_*_tag`, the code checks both that the SET returned a record and that it held a node. The model folds both into "no records returned from the query" when no node carries the tag id.
- Legacy `create_edge` with the taxonomy refusing: the code calls `.format` on the exception object, which raises AttributeError. The model returns that AttributeError message (`LegacySpec.TaxonomyFormatError`) instead of the intended taxonomy text.
- CreateEdge: `Engine.CreateEdge`, `Engine.CreateEdgeUpdates` and `Store.NeoRepository.CreateEdge` model the corrected update by id (`Engine.SetById`), not the MATCH by label of edge.py:145, which also rewrites every sibling relationship of the same type between the two entities (first finding below). Their "every other edge stays" holds for the corrected code only.
- FindExistingTag, CreateTag, DeleteTag, DeleteTagRemoves: `Engine.FindExistingTag`, `Engine.CreateTag`, `Engine.DeleteTag`, `Engine.DeleteTagRemoves`, `Store.NeoRepository.FindExistingTag`, `Store.NeoRepository.CreateTag` and `Store.NeoRepository.DeleteTag` look a tag up with the intended `Engine.FindTagById`. As written, `find_*_tag_by_id` raises on every id (third finding below), so `delete_*_tag` and a `create_*_tag` of a tag with an explicit id always raise.
- LegacySpec, Legacy: every read of the `asset_db` store (`LegacySpec.*`, `Legacy.LegacyRepository.*`) decodes with the corrected `Extract.RelationshipToEdge` and `Extract.NodeToTag`. As written those raise TypeError on every relationship and tag node (fourth and fifth findings below), so each legacy lookup that finds a relationship or node, and each legacy `create_*_tag` that decodes a node, raises.
- ExistingTag, CreateTag: `LegacySpec.ExistingTag`, `LegacySpec.CreateTag` and `Legacy.LegacyRepository.CreateTag` build the intended tag in the explicit-id branch. As written, neo_repository.py:345-351 reads `tag.prop` and passes `prop=` to `EntityTag` / `EdgeTag`, whose field is `property` (types/entity_tag.py:8-13), so that branch raises. The content branch assigns `existing_tag.prop`, an attribute `to_dict()` does not read; the model takes the input's property there.
- ExistingTag, FirstOwned, ExistingTagSource, CreateTag, CreateTagUpdates, CreateTagInserts, MismatchNeverRaised: `LegacySpec.ExistingTag`, `LegacySpec.FirstOwned`, `LegacySpec.ExistingTagSource`, `LegacySpec.CreateTag`, `LegacySpec.CreateTagUpdates`, `LegacySpec.CreateTagInserts`, `LegacySpec.MismatchNeverRaised`, `Legacy.LegacyRepository.FindExistingTag` and `Legacy.LegacyRepository.CreateTag` take the submitted tag's `tag.prop` to be its property. As written, that attribute does not exist (the field is `property`), with these consequences:
  - The content lookup `find_*_tags_by_content(tag.prop)` (neo_repository.py:354, :498) raises AttributeError, which the bare `except` swallows, so no existing tag is ever found by content.
  - The type check of :368 and :512 is reached only from the explicit-id branch, which already raises.
  - The CREATE text reads `tag.prop.property_type` (:404, :548) and raises AttributeError before anything is written.
  - So every `create_entity_tag` / `create_edge_tag` raises and writes nothing. The model's update and insert paths hold for the corrected attribute only.
- GetDuplicateEdge, DuplicateIsBumped, FirstRelBumped, CreateEdgeDuplicate, CreateEdge, CreateEdgeInserts, CreateEdgeKeepsValid: `LegacySpec.GetDuplicateEdge`, `LegacySpec.DuplicateIsBumped`, `LegacySpec.FirstRelBumped`, `LegacySpec.CreateEdgeDuplicate`, `LegacySpec.CreateEdge`, `LegacySpec.CreateEdgeInserts`, `LegacySpec.CreateEdgeKeepsValid`, `Legacy.LegacyRepository.GetDuplicateEdge` and `Legacy.LegacyRepository.CreateEdge` find and bump a duplicate through the corrected `outgoing_edges`. As written, `outgoing_edges` never returns a list:
  - With the decoder as written, `relationship_to_edge` raises on `Edge()` (extract.py:128). `outgoing_edges` skips that record (neo_repository.py:200-202), so it ends with "no edge found" (:208-209).
  - With the decoder corrected, `Entity(id=tid)` raises TypeError at :205, outside the `try`.
  - Either way, the bare `except` of `get_duplicate_edge` returns None (:112-113).
  - So, as written, legacy `create_edge` never finds or bumps a duplicate and always inserts a new relationship. The duplicate path that `CreateEdgeDuplicate` and `DuplicateIsBumped` prove holds for the corrected code only.
- FindTags, FindTagsSpec, DecodeNamed, NamePick, NamePicks, NamePicksSound, NamePicksListed: `LegacySpec.FindTags`, `LegacySpec.FindTagsSpec`, `LegacySpec.DecodeNamed`, `LegacySpec.NamePick`, `LegacySpec.NamePicks`, `LegacySpec.NamePicksSound`, `LegacySpec.NamePicksListed`, `Legacy.LegacyRepository.FindTags` and `Legacy.LegacyRepository.DecodeNamedNodes` filter by the decoded tag's property name. As written, the filter reads `tag.prop.name` (neo_repository.py:461, :638) and raises AttributeError whenever names are given (once the tag decoder is corrected).
- Adjacent, AdjacentPick, AdjacentPicks, AdjacentPickSound, AdjacentSpec, AdjacentComplete, FindEdgeById: `LegacySpec.Adjacent`, `LegacySpec.AdjacentPick`, `LegacySpec.AdjacentPicks`, `LegacySpec.AdjacentPickSound`, `LegacySpec.AdjacentSpec`, `LegacySpec.AdjacentComplete`, `LegacySpec.FindEdgeById` and `Legacy.LegacyRepository.Adjacent`, `IncomingEdges`, `OutgoingEdges` and `FindEdgeById` give each endpoint as an id-only entity (`LegacySpec.Stub`). As written, `Entity(id=fid)` (neo_repository.py:157, :299) and `Entity(id=tid)` (:205, :300) omit the other required fields of `Entity` (types/entity.py:8-11) and raise TypeError (once the relationship decoder is corrected). That TypeError is outside the `try` in all three methods, so `incoming_edges`, `outgoing_edges` and `find_edge_by_id` raise on any relationship they decode.
- CreateEntityProperty, CreateEdgeProperty: `Legacy.LegacyRepository.CreateEntityProperty` and `CreateEdgeProperty` (through `LegacySpec.PropertyTag`) build a tag holding only the property and create it. As written, `EntityTag(prop=property)` (neo_repository.py:476) and `EdgeTag(prop=property)` (neo_repository.py:565) pass an unknown keyword and omit the other required fields, so both raise TypeError.
- SameEdge: `LegacySpec.SameEdge` compares relations with structural equality, payload pairs in order. Python dataclass `==` on the Open Asset Model relations compares fields regardless of the order in which a dict was built; the two agree on payloads written in the same key order.
- Extract.Construct: the Open Asset Model classes are not part of this model, so the keyword fields of `SimpleProperty` are taken from its other call in extract.py:37-40, and those of `SRVDNSRelation` from the keys its relation is stored under.
- QueryPairs, IntendedQueryNode, StoredTagMatches: `Query.QueryPairs`, `Query.IntendedQueryNode` and `Query.StoredTagMatches` describe the corrected pattern, which renders a missing attribute as `None` instead of raising AttributeError. The legacy content lookups (`LegacySpec.FindTagsByContent`, `Legacy.LegacyRepository.FindTagsByContent`) use the pattern as written (`Query.QueryPairsAsWritten`), so a stored Vuln tag is never found by content there (`LegacySpec.VulnContentNeverFound`).
- Query: the `confidence` is modelled as an integer literal, so a float confidence is not rendered. Quotes inside a value are not escaped by the source and are not modelled either.
- The order of the `isinstance` branches in `query.py` and `extract.py` does not matter in the model, because the property variants are exclusive constructors.
- `Values.Str` renders a datetime as its integer and a nested dict as a placeholder. Python's exact text for those is not modelled.

## Findings

| source | as written | input that shows it | evidently intended | confidence | as-written member | corrected member |
|---|---|---|---|---|---|---|
| src/asset_store/repository/neo4j/edge.py:140-150 | the update matches `(from)-[r:LABEL]->(to)` and sets every such relationship | two edges of the same relation type between the same two entities; updating one with a fresher relation overwrites the other's id and relation | rewrite only the relationship with the edge's id | not executed | Engine.SetByLabelClobbersSibling | Engine.SetById |
| src/asset_db/repository/neo4j/extract.py:41-45 | the SourceProperty branch calls `SimpleProperty(name=..., confidence=...)`, while the same class is built with `property_name` / `property_value` at extract.py:37-40 | any stored node with `ttype` "SourceProperty" raises TypeError on the unexpected keyword `name` (reached only once the `EntityTag()` / `EdgeTag()` TypeError of extract.py:60 and :91 is corrected) | decode it as a SourceProperty | not executed | Extract.SourceDecodedAsSimple | Extract.NodeToProperty |
| src/asset_store/repository/neo4j/entity_tag.py:180-193 | `execute_query` without a result transformer returns an eager result, which is never None and has no `get` | a lookup of any stored tag id raises AttributeError | return the decoded node with that tag id, or "not found" | not executed | Engine.FindTagByIdAsWrittenFails | Engine.FindTagById |
| src/asset_db/repository/neo4j/extract.py:59-69 | the tag decoders call `EntityTag()`, `EdgeTag()` and `Entity(id=...)` on dataclasses without field defaults | every well-formed stored tag node raises TypeError before a key is read | build the tag from the stored fields | not executed | Extract.NodeToTagAsWritten | Extract.NodeToTag |
| src/asset_db/repository/neo4j/extract.py:127-128 | `relationship_to_edge` calls `Edge()` on a dataclass without field defaults | every well-formed stored relationship raises TypeError before a key is read | build the edge from the stored fields | not executed | Extract.RelationshipToEdgeAsWritten | Extract.RelationshipToEdge |
| src/asset_db/repository/neo4j/extract.py:170-178 | the SRV branch passes the stored weight as `wright=` | any stored SRV relationship raises TypeError on the unexpected keyword `wright` (reached only once the `Edge()` TypeError of extract.py:128 is corrected) | pass it as `weight=` | not executed | Extract.SrvWeightAsWritten | Extract.RelationshipToEdge |
| src/asset_db/repository/neo4j/query.py:15-18 | the Source pattern fills its `name` key from the attribute `source`; the Vuln pattern asks for `vuln_id`, while the node is stored under `id`, and reads the attribute `description`, while the value is stored under `desc` | a stored Vuln tag whose property has no `vuln_id` key is never found by content, and one with an `id` but no `description` attribute raises AttributeError; a stored Source tag whose `name` is not the text of its `source` is never found by its own pattern | match each variant on the keys its property is stored under, filled from the same attributes | not executed | Query.StoredVulnTagMissed, Query.StoredSourceTagNeedsName, LegacySpec.VulnContentNeverFound | Query.StoredTagMatches, Query.IntendedQueryNode |
