# Changefile generator for building parts, modelled in Dafny

This project models the core of `migrations/500-create-changefiles.py`, the
step of the Buenos Aires building import that turns building footprints
into OsmChange (`.osc`) files for OpenStreetMap. The model covers four things:

- **`IdGenerator`**. It hands out negative placeholder ids, with one
  counter each for nodes, ways and relations.
- **`create_osm_elements_for_feature`**. It turns one building part into
  elements:
  - a Polygon becomes its nodes and one tagged way;
  - a MultiPolygon becomes one `type=multipolygon` relation with an
    `outer` member per component and an `inner` member per hole, plus
    the nodes and untagged ways those members name;
  - any other geometry is an error.
- **`create_building_relation`**. It makes one `type=building` relation
  per parcel (SMP), with one `part` member for each part that was
  encoded.
- **`export_buildings_to_osc`**. For each section it:
  - sorts the block names;
  - cuts them into chunks of five;
  - names each file after its first and last block;
  - starts a fresh `IdGenerator` for each file;
  - encodes every record of every parcel of every block of the chunk.

Elements are kept as structured values (`Elements.Node`, `Way`,
`Relation`), not as XML text. The separate module `Layout` follows the XML
lines the code appends, to compare them with the nesting OsmChange
requires. Coordinates and heights are an opaque `Scalar` with equality,
because the code only compares coordinates (to close a ring) and copies
them and heights into attributes and tags.

The operations that change state are methods: `IdGenerator` is a class with
three counter fields, and the encoder and the export loops are methods that
draw ids from it. Each method is proved equal to a pure specification
function (`Features.Encode`, `Export.Exported`, …). The properties are
lemmas about those functions:

- how ids are allocated;
- the shape of what is emitted;
- when encoding fails;
- how blocks are chunked and how files are named;
- how many files a run writes;
- that ids restart in every file.

Module map:

| file | module | models |
|---|---|---|
| `ids.dfy` | `Ids` | `IdGenerator`, countdown sequences of ids |
| `rings.dfy` | `Rings` | closing a ring, one node per coordinate |
| `features.dfy` | `Features` | `create_osm_elements_for_feature`: specification and methods |
| `allocation.dfy`, `feature_facts.dfy`, `encode_facts.dfy` | `Allocation`, `FeatureFacts`, `EncodeFacts` | what encoding emits, allocates and rejects |
| `ring_ways.dfy` | `RingWays` | which ring each multipolygon member's way draws |
| `buildings.dfy` | `Buildings` | `create_building_relation` |
| `sorting.dfy` | `Sorting` | `blocks.sort()`: Python string order, in-place sort |
| `chunks.dfy` | `Chunking` | chunks of five, file names |
| `export.dfy`, `export_facts.dfy` | `Export`, `ExportFacts` | `export_buildings_to_osc` and its properties |
| `layout.dfy` | `Layout` | the XML line layout and its nesting |

## Model

| member | source | states |
|---|---|---|
| Ids.IdGenerator.constructor | migrations/500-create-changefiles.py:32-35 | A new generator has all three counters at 0 and has issued nothing. |
| Ids.IdGenerator.NextNode | migrations/500-create-changefiles.py:37-39 | Returns -1 on the first call and one less than the previous node id on each later call. The id is negative and was never issued before. The way and relation counters are unchanged. |
| Ids.IdGenerator.NextWay | migrations/500-create-changefiles.py:41-43 | The same for way ids. The node and relation counters are unchanged. |
| Ids.IdGenerator.NextRel | migrations/500-create-changefiles.py:45-47 | The same for relation ids. The node and way counters are unchanged. |
| Ids.CountdownFacts | migrations/500-create-changefiles.py:37-47 | Ids drawn one after another from a counter at or below 0 are negative, strictly decreasing and distinct. Drawn from a fresh counter, the first is -1. |
| Ids.CountdownSplit | migrations/500-create-changefiles.py:37-47 | Drawing n ids and then m more gives the same ids as drawing n+m at once. |
| Rings.CloseRing | migrations/500-create-changefiles.py:96-98 | The result is closed and starts with the input. It adds at most one coordinate. It equals the input exactly when the input was already closed. An empty ring is an error. |
| Rings.CloseRingIdempotent | migrations/500-create-changefiles.py:96-98 | Closing a closed ring changes nothing. |
| Rings.CloseOpenRing | migrations/500-create-changefiles.py:96-98 | An open ring grows by one copy of its first coordinate. |
| Rings.RingNodes | migrations/500-create-changefiles.py:85-90 | There is one node per coordinate, with lat = y and lon = x. The node ids are the next ids from the node counter, in order. |
| Rings.RingNodesRoundTrip | migrations/500-create-changefiles.py:85-90 | The coordinates read back from the nodes are the ring itself. |
| Rings.ClosedRingWayReturns | migrations/500-create-changefiles.py:96-102 | The nodes of a closed ring start and end at the same coordinates. |
| Rings.AddRingNodes | migrations/500-create-changefiles.py:100 | The loop of `add_node` calls yields exactly `RingNodes` and moves only the node counter, by the ring's length. |
| Features.EncodeFeature | migrations/500-create-changefiles.py:78-162 | The method's elements, id, kind and new generator state are those of `Encode`. An error is `Encode`'s error. An unsupported geometry draws no id. |
| Features.PolygonElements | migrations/500-create-changefiles.py:93-110 | The Polygon branch yields what `EncodePolygon` specifies, including the new counters. |
| Features.MultiPolygonElements | migrations/500-create-changefiles.py:112-159 | The MultiPolygon branch yields what `EncodeMultiPolygon` specifies, including the new counters. |
| Features.AddComponentElements | migrations/500-create-changefiles.py:120-157 | One component yields its outer nodes, its holes and then its outer way, as `AddComponent` specifies. |
| Features.AddInteriorElements | migrations/500-create-changefiles.py:139-155 | One hole yields its nodes, its way and its `inner` member, as `AddInterior` specifies. |
| EncodeFacts.PolygonShape | migrations/500-create-changefiles.py:93-110 | A Polygon gives one node per coordinate of the closed exterior ring, with consecutive ids and lat/lon from y/x. Then comes one way, whose refs are those node ids in order and whose tags are `height` and `building:part=yes`. There is no relation. The result is (way id, way). |
| EncodeFacts.PolygonAllocates | migrations/500-create-changefiles.py:93-110 | The Polygon's node ids are the next ids in order. The way is the only way. |
| EncodeFacts.PolygonIgnoresInteriors | migrations/500-create-changefiles.py:93-110 | Two Polygons with the same exterior and height encode identically: the holes are dropped. |
| EncodeFacts.MultiPolygonShape | migrations/500-create-changefiles.py:112-159 | A MultiPolygon's first element is the relation with the next relation id and tags `type=multipolygon`, `height`, `building:part=yes`. Each component gives one `outer` member followed by one `inner` per hole. All members are ways, with distinct fresh way ids in allocation order, and each names a way emitted in the same call. Member k belongs to the k-th ring, taking each component's exterior and then its holes. Its way is untagged, and its refs are the ids of one node per point of that closed ring, in ring order. Each of those nodes has lat/lon from the point's y/x. Ring k's node ids start at `c.node` less the closed sizes of the rings before it. The result is (relation id, relation). |
| EncodeFacts.HeadMembers | migrations/500-create-changefiles.py:120-157 | Behind the relation, the components' members have the expected roles (one `outer`, then one `inner` per hole), are all ways, take the next way ids in order, and each names a way emitted behind the relation. The relation counter is untouched and the way counter moves on by the member count. |
| EncodeFacts.MultiPolygonAllocates | migrations/500-create-changefiles.py:112-159 | Node and relation ids are the next ids in document order, with exactly one relation. Way ids are distinct and in the fresh range. The node counter moves on by exactly the rings' total closed size. The node elements' ids, in order, are exactly the rings' node ids, ring by ring, so no other node is emitted. |
| EncodeFacts.EncodeAllocates | migrations/500-create-changefiles.py:78-162 | Every successful encoding allocates fresh ids and returns the id of an element it emitted. The kind is way iff the geometry is a Polygon, and relation iff it is a MultiPolygon. |
| EncodeFacts.EncodeFails | migrations/500-create-changefiles.py:92-162 | Encoding fails iff the geometry is neither kind, or some ring it reads is empty. The first case gives the unsupported-geometry error with the type's name, the second the empty-ring error. |
| EncodeFacts.AddInteriorsFails | migrations/500-create-changefiles.py:139-142 | The holes fail iff one of them is empty. |
| EncodeFacts.AddComponentFails | migrations/500-create-changefiles.py:120-142 | A component fails iff its exterior or one of its holes is empty. |
| EncodeFacts.AddComponentsFails | migrations/500-create-changefiles.py:120-157 | The components fail iff some component has an empty ring. |
| FeatureFacts.RoleCounts | migrations/500-create-changefiles.py:120-147 | The expected roles hold one `outer` per component and one `inner` per hole, and no `part`. |
| FeatureFacts.AddComponentsGrows | migrations/500-create-changefiles.py:120-157 | Folding the components appends parts and members. The member roles are the expected ones. The member refs are the next way ids, and each names an appended way. Ids are freshly allocated. What each way holds is stated by `RingWays.AddComponentsCarry`. |
| FeatureFacts.AddInteriorsGrows | migrations/500-create-changefiles.py:139-155 | The holes append one `inner` way member each, with fresh ids. What each way holds is stated by `RingWays.AddInteriorsCarry`. |
| FeatureFacts.AddComponentGrows | migrations/500-create-changefiles.py:120-157 | A component appends `outer`, then one `inner` per hole, with fresh ids. What each way holds is stated by `RingWays.AddComponentCarry`. |
| RingWays.NodesThenWayCarry | migrations/500-create-changefiles.py:125-136 | Nodes for a closed ring, then any elements, then the untagged way over those node ids: the way's refs count down from the first node id, one per point. The node of point j has that point's y/x as lat/lon. |
| RingWays.AddInteriorCarries | migrations/500-create-changefiles.py:139-155 | One hole appends a member whose untagged way runs over the hole's closed ring nodes, in order. The node counter moves on by the closed ring's size. |
| RingWays.AddInteriorsCarry | migrations/500-create-changefiles.py:139-155 | The k-th hole's member names an untagged way over the nodes of the k-th closed hole, in ring order. Each hole's node ids start where the previous hole's end, and the node counter moves on by the holes' total closed size. |
| RingWays.ExteriorCarries | migrations/500-create-changefiles.py:122-136 | The exterior ring's nodes and member come first. Its untagged way, appended after whatever follows, runs over those node ids in ring order. |
| RingWays.ExteriorThenHoles | migrations/500-create-changefiles.py:120-157 | Appending the exterior's way after the holes keeps each hole's way carrying its ring, and the exterior's member carries the exterior. |
| RingWays.AddComponentCarry | migrations/500-create-changefiles.py:120-157 | A component's first member carries its closed exterior ring. The following members carry its holes, in order. The exterior's nodes come first and each hole's start where the previous ring's end; the node counter moves on by their total closed size. |
| RingWays.AddComponentsCarry | migrations/500-create-changefiles.py:120-157 | Over all components, member k names an untagged way over the nodes of the k-th ring, taking each component's exterior and then its holes. The rings take node ids in turn, and the node counter moves on by their total closed size. |
| RingWays.MemberWays | migrations/500-create-changefiles.py:112-159 | Behind the relation, member k of the relation carries the k-th ring, and that ring closes without error. The rings take node ids in turn from the start counter, which moves on by their total closed size. |
| Allocation.FreshAllocation | migrations/500-create-changefiles.py:31-47 | From a fresh generator, node and relation ids are -1, -2, … in document order. Way ids are distinct and lie between the last drawn and -1. |
| Buildings.CreateBuildingRelation | migrations/500-create-changefiles.py:165-178 | It draws exactly one relation id and changes nothing else. The relation is `BuildingRelation`. |
| Buildings.BuildingRelationShape | migrations/500-create-changefiles.py:165-178 | The building relation has the next relation id and tags `type=building`, `ref:SMP`, `source`. It has one `part` member per pair, in order, with that pair's kind and id. |
| Buildings.PartMembers | migrations/500-create-changefiles.py:175-176 | There is one `part` member per (id, kind) pair, in order. |
| Sorting.LexLeqTotal | migrations/500-create-changefiles.py:194 | Python's string order is total. |
| Sorting.LexLeqTransitive | migrations/500-create-changefiles.py:194 | Python's string order is transitive. |
| Sorting.LexLeqAntisymmetric | migrations/500-create-changefiles.py:194 | Python's string order is antisymmetric. |
| Sorting.SortedBlocks | migrations/500-create-changefiles.py:194 | The sorted blocks are ordered and are a permutation of the input. |
| Sorting.SortedUnique | migrations/500-create-changefiles.py:194 | Two ordered permutations of the same blocks are equal, so the sort's result is determined. |
| Sorting.SortBlocks | migrations/500-create-changefiles.py:194 | Sorting the array in place leaves exactly `SortedBlocks` of its old contents. |
| Chunking.Chunks | migrations/500-create-changefiles.py:195-198 | There are ceil(n/5) chunks. Each holds 1 to 5 blocks, and all but the last hold exactly 5. |
| Chunking.ChunksConcat | migrations/500-create-changefiles.py:195-196 | The chunks concatenate back to the block list. |
| Chunking.ChunkAt | migrations/500-create-changefiles.py:195-196 | Chunk k is the slice `blocks[5k : 5k+5]`. |
| Chunking.ChunksInOrder | migrations/500-create-changefiles.py:194-196 | With sorted blocks, every block of an earlier chunk sorts at or before every block of a later one. |
| Chunking.FileNameShape | migrations/500-create-changefiles.py:199-204 | The name is `sec{sec}_blocks_{first}`, then `-{last}` exactly when last ≠ first, then `.osc`. |
| Chunking.RangeOnlyForSeveral | migrations/500-create-changefiles.py:199-204 | With distinct block names, a range appears iff the chunk holds more than one block. |
| Export.AddParcelElements | migrations/500-create-changefiles.py:212-228 | One parcel's records loop, then its building relation, yield `AddParcel`, with the generator state it specifies. |
| Export.AddBlockElements | migrations/500-create-changefiles.py:211-228 | One block's parcels yield `AddParcels`. A block with no parcels adds nothing. |
| Export.WriteChunk | migrations/500-create-changefiles.py:199-228 | One file gets a fresh generator and the chunk's elements, named as `ChunkFile` specifies. |
| Export.WriteChunks | migrations/500-create-changefiles.py:195-228 | The chunk loop writes the files `SectionFiles` specifies and stops at the first error. |
| Export.ExportSection | migrations/500-create-changefiles.py:193-228 | One section's blocks are sorted in place, then written chunk by chunk. |
| Export.ExportBuildingsToOsc | migrations/500-create-changefiles.py:181-234 | The whole loop gives `Exported`. |
| ExportFacts.AddRecordsShape | migrations/500-create-changefiles.py:216-223 | The records append their encodings in record order. The appended elements are the concatenation of one slice per record. Record i is encoded from the counters the earlier records left, starting at the parcel's. Its slice is exactly its encoding's elements, and its (id, kind) pair is that encoding's result, an id within the slice. Ids are allocated fresh. |
| ExportFacts.AddParcelShape | migrations/500-create-changefiles.py:212-228 | A parcel appends its records' slices and then its building relation. The relation has one `part` member per record, in record order. Member i names the id and kind that record i's own encoding returned, an element of record i's slice. |
| ExportFacts.ChunkFileIds | migrations/500-create-changefiles.py:199-228 | A written file is named `FileName` of its chunk. Its node and relation ids restart at -1. Its way ids are distinct and within -1 … -(number of ways). |
| ExportFacts.SectionFilesInOrder | migrations/500-create-changefiles.py:195-234 | The files follow the chunks in order. The run completes iff every chunk was written. A stopped run carries the error of the first chunk it did not write. |
| ExportFacts.ExportedIdsRestart | migrations/500-create-changefiles.py:209 | In every written file, the ids restart as `ChunkFileIds` states. |
| ExportFacts.ExportedCount | migrations/500-create-changefiles.py:193-198 | A completed run writes ceil(blocks/5) files for each section. |
| ExportFacts.SectionBlocks | migrations/500-create-changefiles.py:194-196 | The chunks of the sorted blocks, read one after another, are sorted and hold the same multiset as the blocks. So they are encodable iff the blocks are. |
| ExportFacts.ExportedCompletes | migrations/500-create-changefiles.py:181-234 | A run completes iff every record of every parcel in every block of every section can be encoded. |
| Layout.WrittenMultiPolygon | migrations/500-create-changefiles.py:112-159 | The MultiPolygon branch's XML lines as written (see Findings). |
| Layout.WrittenMultiPolygonMisnested | migrations/500-create-changefiles.py:112-159 | As written, every MultiPolygon with a component puts node lines inside its `<relation>` element, so its lines never nest as OsmChange requires. |
| Layout.RenderWellNested | migrations/500-create-changefiles.py:85-178 | Laid out one element per block, any list of elements nests correctly. |
| Layout.MultiPolygonRendered | migrations/500-create-changefiles.py:112-159 | The corrected layout of a MultiPolygon's elements nests correctly. It is `RenderWellNested` applied to a MultiPolygon's elements. |
| Layout.ExportedFilesNest | migrations/500-create-changefiles.py:206-234 | Every file an export writes nests correctly in the corrected layout. It is `RenderWellNested` applied to each written file's elements. |

## Left out

- The database: connecting, the query, and WKB and shapely decoding are left out. Records arrive as `Feature` values whose geometry is already a `Polygon`, a list of components, or the name of another type.
- The loops at lines 182-191 that group parcels into `(section, block)` and blocks into sections are left out. They read `buildings_by_smp`, which the file never defines. The model takes their result as input: a sequence of sections with their blocks, and a map from `(section, block)` to parcels. A key that is missing gives no parcels, as `defaultdict` does.
- The export loop calls `create_osm_elements_for_geom`, which the file never defines. It is modelled as `create_osm_elements_for_feature`, given the record's geometry and height.
- The `__main__` block is left out: the `itertools.groupby` and `itertools.batched` calls and the print statements.
- Writing files and the `Written …` message are left out. A run is the list of files it would write, each a name and its elements.
- XML text is not modelled: the `<?xml …?>`, `<osmChange>` and `<create>` wrapper lines, the `version`/`changeset` attributes, and the formatting of floats in f-strings. `Layout` follows the element, tag and member lines only.
- Python exceptions are modelled as an `Err` result. An empty ring gives `EmptyRing`, where the code's `coords[0]` raises `IndexError`. Any other geometry gives `UnsupportedGeometry`. After an error the export stops. The files already written stay written. The generator state left behind is not stated.
- Coordinates are two-dimensional (`Elements.Coord` has `x` and `y` only). Lines 100, 125 and 143 unpack each coordinate as `(x, y)`, so a ring with 3-D coordinates would raise `ValueError`. That error path is not modelled.
- Rings.CloseRing: `Scalar` equality is reflexive, but Python float `!=` says NaN is unequal to itself. So when a ring's first and last points are equal copies holding a NaN component, lines 97, 123 and 141 still append the first point, where `CloseRing` does not. NaN coordinates are not modelled.
- `sort()` mutates the lists inside `section_to_blocks` in place. That aliasing is not observable in the modelled outputs, so the model sorts a copy of the blocks into an array.
- Python compares strings by Unicode code point. `Sorting.LexLeq` compares Dafny `char` values, which are ordered the same way.
- EncodeFacts.MultiPolygonAllocates: way ids are stated to be distinct and within the freshly drawn range, not in document order. The outer way is appended after its holes' ways, although its id is drawn before theirs.
- A Polygon's holes are dropped, as the `case Polygon()` arm at lines 93-110 does. The comment at line 113 says that a polygon with holes should become a multipolygon relation, but a Polygon never reaches that arm. The model follows the code, and `EncodeFacts.PolygonIgnoresInteriors` states the behaviour.
- The model does not claim that an element is defined before the elements that reference it. The MultiPolygon's relation comes first in the element list, ahead of the ways it names, because its opening line comes first in the code.
- Chunking.FileNameShape: distinct chunks could give the same file name when block names contain `-`. The model does not state that file names are unique.

## Findings

| source | as written | input that shows it | evidently intended | confidence | as-written member | corrected member |
|---|---|---|---|---|---|---|
| migrations/500-create-changefiles.py:112-159 | The MultiPolygon branch appends its `<node>` lines, its `<member>` lines and its `<way>` elements to the same list, after the `<relation>` opening and tags and before `</relation>`. The nodes and ways therefore end up nested inside the relation element. | Any MultiPolygon with one component, for example a single exterior ring with one coordinate and no holes. Its lines are `<relation>`, three `<tag>`s, `<node>`, `<member>`, `<way>`, `<nd>`, `</way>`, `</relation>`. | A relation holds only its `tag` and `member` lines. Its nodes and ways are separate, sibling elements of the `<create>` block. | not executed | Layout.WrittenMultiPolygonMisnested | Layout.RenderWellNested |
