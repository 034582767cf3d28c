/// The `type=building` relation that groups the encoded parts of one
/// parcel (`create_building_relation`, lines 165-178 of the source).
module Buildings {

  import opened Seqs
  import opened Elements
  import opened Ids
  import opened Allocation

  /** One encoded part of a building: the id and kind the feature encoder
      returned for it. */
  datatype PartRef = PartRef(id: int, kind: ElementKind)

  /** `type=building`, the parcel's `ref:SMP` and the data source, in
      this order. */
  function BuildingTags(smp: string): seq<Tag> {
    [Tag("type", Text("building")), Tag("ref:SMP", Text(smp)), Tag("source", Text("GCBA Tejido Urbano"))]
  }

  /** One `part` member per encoded part, of the part's kind and id, in the
      order of `parts`. */
  function PartMembers(parts: seq<PartRef>): (ms: seq<Member>)
    ensures |ms| == |parts|
    ensures forall i :: 0 <= i < |parts| ==> ms[i] == Member(parts[i].kind, parts[i].id, Part)
  {
    if parts == [] then []
    else PartMembers(parts[..|parts| - 1]) + [Member(Last(parts).kind, Last(parts).id, Part)]
  }

  /** The relation built for parcel `smp` when the relation counter stands
      at `c`. */
  function BuildingRelation(smp: string, parts: seq<PartRef>, c: Counters): Relation {
    Relation(c.rel - 1, PartMembers(parts), BuildingTags(smp))
  }

  /** Allocates one relation id and builds the relation. */
  method CreateBuildingRelation(smp: string, partMembers: seq<PartRef>, ids: IdGenerator) returns (r: Relation)
    requires ids.Valid()
    modifies ids
    ensures ids.Valid()
    ensures r == BuildingRelation(smp, partMembers, old(ids.State()))
    ensures ids.State() == old(ids.State()).(rel := old(ids.State()).rel - 1)
  {
    var relId := ids.NextRel();
    var members: seq<Member> := [];
    for i := 0 to |partMembers|
      invariant members == PartMembers(partMembers[..i])
    {
      assert partMembers[..i + 1][..i] == partMembers[..i];
      members := members + [Member(partMembers[i].kind, partMembers[i].id, Part)];
    }
    assert partMembers[..|partMembers|] == partMembers;
    r := Relation(relId, members, BuildingTags(smp));
  }

  /** The relation uses exactly one id, the next relation id; it lists one
      `part` member per part, in order, referring to that part. */
  lemma BuildingRelationShape(smp: string, parts: seq<PartRef>, c: Counters)
    ensures var r := BuildingRelation(smp, parts, c);
      && Allocated([RelationElement(r)], c, c.(rel := c.rel - 1))
      && |r.members| == |parts|
      && (forall i :: 0 <= i < |parts| ==> r.members[i].ref == parts[i].id && r.members[i].kind == parts[i].kind && r.members[i].role == Part)
      && r.tags == BuildingTags(smp)
  {
    AllocatedRelation(BuildingRelation(smp, parts, c), c);
  }
}
