/// What the written change files are like: every file numbers its ids
/// afresh, every building relation lists the parts its own parcel's records
/// produced, the files follow the chunks in order, and the export stops
/// exactly when some record's geometry cannot be encoded.
module ExportFacts {

  import opened Seqs
  import opened Elements
  import opened Ids
  import opened Features
  import opened Allocation
  import opened Buildings
  import opened EncodeFacts
  import opened Sorting
  import opened Chunking
  import opened Export

  /** A file's ids as a fresh generator hands them out: nodes and relations
      numbered -1, -2, ... in document order, ways distinct and numbered
      from -1 down to minus their count. */
  predicate IdsRestart(elements: seq<Element>) {
    var nodes := IdsOf(elements, NodeKind);
    var ways := IdsOf(elements, WayKind);
    var rels := IdsOf(elements, RelationKind);
    && (forall i :: 0 <= i < |nodes| ==> nodes[i] == -1 - i)
    && (forall i :: 0 <= i < |rels| ==> rels[i] == -1 - i)
    && Distinct(ways)
    && (forall id :: id in ways ==> -|ways| <= id <= -1)
  }

  /** Record `record`, encoded with the counters at `c`, gives exactly the
      elements `slice` and is referred to by `id` of kind `kind`, an id
      among those elements. */
  predicate EncodedAs(record: Feature, c: Counters, slice: seq<Element>, id: int, kind: ElementKind) {
    && Encode(record, c).Ok?
    && Encode(record, c).value.encoded.parts == slice
    && Encode(record, c).value.encoded.id == id
    && Encode(record, c).value.encoded.kind == kind
    && id in IdsOf(slice, kind)
  }

  /** The records of a parcel append, each in turn, its own encoding's
      elements: record `i` is encoded with the counters `starts[i]` that the
      records before it left, gives the slice `slices[i]` of the appended
      elements, and its part is the head of that slice's encoding. */
  lemma {:induction false} AddRecordsShape(acc: Progress, records: seq<Feature>)
    returns (added: seq<Element>, refs: seq<PartRef>, slices: seq<seq<Element>>, starts: seq<Counters>)
    requires AddRecords(acc, records).Ok?
    ensures var p := AddRecords(acc, records).value;
      && p.elements == acc.elements + added
      && p.refs == acc.refs + refs
      && Allocated(added, acc.after, p.after)
      && |refs| == |records| && |slices| == |records| && |starts| == |records|
      && added == Concat(slices)
      && (records != [] ==> starts[0] == acc.after)
      && (forall i :: 0 <= i < |records| ==> EncodedAs(records[i], starts[i], slices[i], refs[i].id, refs[i].kind))
      && (forall i :: 0 <= i < |records| - 1 ==> starts[i + 1] == Encode(records[i], starts[i]).value.after)
    decreases |records|
  {
    if records == [] {
      added, refs, slices, starts := [], [], [], [];
      assert acc.elements + [] == acc.elements && acc.refs + [] == acc.refs;
    } else {
      var em := Encode(records[0], acc.after).value;
      EncodeAllocates(records[0], acc.after);
      var ref := PartRef(em.encoded.id, em.encoded.kind);
      var next := Progress(acc.elements + em.encoded.parts, acc.refs + [ref], em.after);
      AddRecordsUnfold(acc, records);
      var added', refs', slices', starts' := AddRecordsShape(next, records[1..]);
      var p := AddRecords(acc, records).value;
      added := em.encoded.parts + added';
      refs := [ref] + refs';
      slices := [em.encoded.parts] + slices';
      starts := [acc.after] + starts';
      assert slices[1..] == slices';
      Assoc3(acc.elements, em.encoded.parts, added');
      Assoc3(acc.refs, [ref], refs');
      AllocatedConcat(em.encoded.parts, added', acc.after, em.after, p.after);
      forall i | 0 <= i < |records|
        ensures EncodedAs(records[i], starts[i], slices[i], refs[i].id, refs[i].kind)
      {
        if i > 0 {
          assert records[i] == records[1..][i - 1];
        }
      }
      forall i | 0 <= i < |records| - 1
        ensures starts[i + 1] == Encode(records[i], starts[i]).value.after
      {
        if i > 0 {
          assert records[i] == records[1..][i - 1];
        }
      }
    }
  }

  /** A parcel appends its records' elements and then its building
      relation, whose `part` members, one per record and in record order,
      each name the head element of that record's own slice of the
      appended elements. */
  lemma AddParcelShape(acc: Batch, parcel: Parcel)
    returns (added: seq<Element>, relation: Relation, slices: seq<seq<Element>>, starts: seq<Counters>)
    requires AddParcel(acc, parcel).Ok?
    ensures var b := AddParcel(acc, parcel).value;
      && b.elements == acc.elements + added + [RelationElement(relation)]
      && Allocated(added + [RelationElement(relation)], acc.after, b.after)
      && relation.tags == BuildingTags(parcel.smp)
      && |relation.members| == |parcel.records| && |slices| == |parcel.records| && |starts| == |parcel.records|
      && added == Concat(slices)
      && (parcel.records != [] ==> starts[0] == acc.after)
      && (forall i :: 0 <= i < |relation.members| ==>
            relation.members[i].role == Part
            && EncodedAs(parcel.records[i], starts[i], slices[i], relation.members[i].ref, relation.members[i].kind))
  {
    var start := Progress(acc.elements, [], acc.after);
    var p := AddRecords(start, parcel.records).value;
    var refs;
    added, refs, slices, starts := AddRecordsShape(start, parcel.records);
    assert p.refs == refs;
    relation := BuildingRelation(parcel.smp, p.refs, p.after);
    BuildingRelationShape(parcel.smp, p.refs, p.after);
    AddParcelDone(acc, parcel, p);
    AllocatedConcat(added, [RelationElement(relation)], acc.after, p.after, p.after.(rel := p.after.rel - 1));
  }

  lemma {:induction false} AddParcelsShape(acc: Batch, ps: seq<Parcel>) returns (added: seq<Element>)
    requires AddParcels(acc, ps).Ok?
    ensures var b := AddParcels(acc, ps).value;
      b.elements == acc.elements + added && Allocated(added, acc.after, b.after)
    decreases |ps|
  {
    if ps == [] {
      added := [];
      assert acc.elements + [] == acc.elements;
    } else {
      AddParcelsUnfold(acc, ps);
      var next := AddParcel(acc, ps[0]).value;
      var part, relation, slices, starts := AddParcelShape(acc, ps[0]);
      var rest := AddParcelsShape(next, ps[1..]);
      var own := part + [RelationElement(relation)];
      Assoc3(acc.elements, part, [RelationElement(relation)]);
      assert next.elements == acc.elements + own;
      added := own + rest;
      Assoc3(acc.elements, own, rest);
      AllocatedConcat(own, rest, acc.after, next.after, AddParcels(acc, ps).value.after);
    }
  }

  lemma {:induction false} AddBlocksShape(acc: Batch, sec: string, blocks: seq<string>, parcels: Parcels)
    returns (added: seq<Element>)
    requires AddBlocks(acc, sec, blocks, parcels).Ok?
    ensures var b := AddBlocks(acc, sec, blocks, parcels).value;
      b.elements == acc.elements + added && Allocated(added, acc.after, b.after)
    decreases |blocks|
  {
    if blocks == [] {
      added := [];
      assert acc.elements + [] == acc.elements;
    } else {
      AddBlocksUnfold(acc, sec, blocks, parcels);
      var ps := ParcelsOf(parcels, sec, blocks[0]);
      var next := AddParcels(acc, ps).value;
      var first := AddParcelsShape(acc, ps);
      var rest := AddBlocksShape(next, sec, blocks[1..], parcels);
      added := first + rest;
      Assoc3(acc.elements, first, rest);
      AllocatedConcat(first, rest, acc.after, next.after, AddBlocks(acc, sec, blocks, parcels).value.after);
    }
  }

  /** Each chunk's file is named after its first and last block and, its
      generator being new, numbers its ids from -1 on. */
  lemma ChunkFileIds(sec: string, chunk: seq<string>, parcels: Parcels)
    requires chunk != [] && ChunkFile(sec, chunk, parcels).Ok?
    ensures ChunkFile(sec, chunk, parcels).value.name == FileName(sec, chunk)
    ensures IdsRestart(ChunkFile(sec, chunk, parcels).value.elements)
  {
    var b := AddBlocks(Batch([], Fresh), sec, chunk, parcels).value;
    var added := AddBlocksShape(Batch([], Fresh), sec, chunk, parcels);
    assert [] + added == added;
    FreshAllocation(b.elements, b.after);
  }

  /** A section's run keeps the files already written and adds one file per
      chunk, in order, each the chunk's own file, until a chunk fails; it
      completes exactly when it has written a file for every chunk. */
  lemma {:induction false} SectionFilesInOrder(written: seq<OscFile>, sec: string, chunks: seq<seq<string>>, parcels: Parcels)
    requires forall k :: 0 <= k < |chunks| ==> chunks[k] != []
    ensures var run := SectionFiles(written, sec, chunks, parcels);
      && |written| <= |run.written| <= |written| + |chunks|
      && run.written[..|written|] == written
      && (forall k :: 0 <= k < |run.written| - |written| ==>
            ChunkFile(sec, chunks[k], parcels) == Ok(run.written[|written| + k]))
      && (run.Completed? <==> |run.written| == |written| + |chunks|)
      && (run.Stopped? ==> ChunkFile(sec, chunks[|run.written| - |written|], parcels) == Err(run.error))
    decreases |chunks|
  {
    if chunks == [] {
      assert written[..|written|] == written;
    } else {
      var run := SectionFiles(written, sec, chunks, parcels);
      if ChunkFile(sec, chunks[0], parcels).Err? {
        assert run == Stopped(written, ChunkFile(sec, chunks[0], parcels).error);
        assert written[..|written|] == written;
      } else {
        var file := ChunkFile(sec, chunks[0], parcels).value;
        SectionFilesInOrder(written + [file], sec, chunks[1..], parcels);
        assert run == SectionFiles(written + [file], sec, chunks[1..], parcels);
        ShiftFiles(written, file, run.written, sec, chunks, parcels);
        if run.Stopped? {
          assert chunks[|run.written| - |written|] == chunks[1..][|run.written| - (|written| + 1)];
        }
      }
    }
  }

  /** The files of the rest of the chunks, after the first chunk's file. */
  lemma ShiftFiles(written: seq<OscFile>, file: OscFile, w: seq<OscFile>, sec: string, chunks: seq<seq<string>>, parcels: Parcels)
    requires chunks != [] && forall k :: 0 <= k < |chunks| ==> chunks[k] != []
    requires ChunkFile(sec, chunks[0], parcels) == Ok(file)
    requires |written| + 1 <= |w| <= |written| + |chunks| && w[..|written| + 1] == written + [file]
    requires forall k :: 0 <= k < |w| - (|written| + 1) ==>
      ChunkFile(sec, chunks[1..][k], parcels) == Ok(w[|written| + 1 + k])
    ensures w[..|written|] == written
    ensures forall k :: 0 <= k < |w| - |written| ==> ChunkFile(sec, chunks[k], parcels) == Ok(w[|written| + k])
  {
    assert w[..|written|] == (written + [file])[..|written|];
    forall k | 0 <= k < |w| - |written|
      ensures ChunkFile(sec, chunks[k], parcels) == Ok(w[|written| + k])
    {
      if k == 0 {
        assert w[|written|] == (written + [file])[|written|];
      } else {
        assert chunks[k] == chunks[1..][k - 1];
      }
    }
  }

  predicate AllRestart(files: seq<OscFile>) {
    forall i :: 0 <= i < |files| ==> IdsRestart(files[i].elements)
  }

  lemma {:induction false} SectionFilesRestart(written: seq<OscFile>, sec: string, chunks: seq<seq<string>>, parcels: Parcels)
    requires AllRestart(written)
    ensures AllRestart(SectionFiles(written, sec, chunks, parcels).written)
    decreases |chunks|
  {
    if chunks != [] && chunks[0] != [] && ChunkFile(sec, chunks[0], parcels).Ok? {
      var file := ChunkFile(sec, chunks[0], parcels).value;
      ChunkFileIds(sec, chunks[0], parcels);
      assert AllRestart(written + [file]) by {
        forall i | 0 <= i < |written| + 1
          ensures IdsRestart((written + [file])[i].elements)
        {
          if i < |written| {
            assert (written + [file])[i] == written[i];
          }
        }
      }
      SectionFilesRestart(written + [file], sec, chunks[1..], parcels);
    } else if chunks != [] && chunks[0] == [] {
      SectionFilesRestart(written, sec, chunks[1..], parcels);
    }
  }

  lemma {:induction false} ExportSectionsRestart(written: seq<OscFile>, sections: seq<Section>, parcels: Parcels)
    requires AllRestart(written)
    ensures AllRestart(ExportSections(written, sections, parcels).written)
    decreases |sections|
  {
    if sections != [] {
      var chunks := Chunks(SortedBlocks(sections[0].blocks));
      SectionFilesRestart(written, sections[0].name, chunks, parcels);
      var run := SectionFiles(written, sections[0].name, chunks, parcels);
      if run.Completed? {
        ExportSectionsRestart(run.written, sections[1..], parcels);
      }
    }
  }

  /** Every file the export writes, whether or not it runs to the end,
      numbers its ids from -1 on, as a new generator per file makes it. */
  lemma ExportedIdsRestart(sections: seq<Section>, parcels: Parcels)
    ensures AllRestart(Exported(sections, parcels).written)
  {
    ExportSectionsRestart([], sections, parcels);
  }

  /** A run that completes writes, for each section, one file per five
      blocks, the last one possibly shorter. */
  function FileCount(sections: seq<Section>): nat {
    if sections == [] then 0
    else (|sections[0].blocks| + ChunkSize - 1) / ChunkSize + FileCount(sections[1..])
  }

  lemma {:induction false} ExportSectionsCount(written: seq<OscFile>, sections: seq<Section>, parcels: Parcels)
    ensures var run := ExportSections(written, sections, parcels);
      run.Completed? ==> |run.written| == |written| + FileCount(sections)
    decreases |sections|
  {
    if sections != [] {
      var sorted := SortedBlocks(sections[0].blocks);
      assert |sorted| == |sections[0].blocks| by {
        assert |multiset(sorted)| == |multiset(sections[0].blocks)|;
      }
      var chunks := Chunks(sorted);
      SectionFilesInOrder(written, sections[0].name, chunks, parcels);
      var run := SectionFiles(written, sections[0].name, chunks, parcels);
      if run.Completed? {
        ExportSectionsCount(run.written, sections[1..], parcels);
      }
    }
  }

  lemma ExportedCount(sections: seq<Section>, parcels: Parcels)
    ensures Exported(sections, parcels).Completed? ==> |Exported(sections, parcels).written| == FileCount(sections)
  {
    ExportSectionsCount([], sections, parcels);
  }

  predicate RecordsEncodable(records: seq<Feature>) {
    forall i :: 0 <= i < |records| ==> Encodable(records[i].geom)
  }

  predicate ParcelsEncodable(ps: seq<Parcel>) {
    forall i :: 0 <= i < |ps| ==> RecordsEncodable(ps[i].records)
  }

  /** Every record of every parcel of the given blocks can be encoded. */
  predicate BlocksEncodable(parcels: Parcels, sec: string, blocks: seq<string>) {
    forall b :: b in blocks ==> ParcelsEncodable(ParcelsOf(parcels, sec, b))
  }

  lemma {:induction false} AddRecordsSucceeds(acc: Progress, records: seq<Feature>)
    ensures AddRecords(acc, records).Ok? <==> RecordsEncodable(records)
    decreases |records|
  {
    if records != [] {
      EncodeFails(records[0], acc.after);
      AddRecordsUnfold(acc, records);
      var em := Encode(records[0], acc.after);
      if em.Ok? {
        var next := Progress(acc.elements + em.value.encoded.parts,
                             acc.refs + [PartRef(em.value.encoded.id, em.value.encoded.kind)],
                             em.value.after);
        AddRecordsSucceeds(next, records[1..]);
      }
      assert RecordsEncodable(records) <==> Encodable(records[0].geom) && RecordsEncodable(records[1..]) by {
        if Encodable(records[0].geom) && RecordsEncodable(records[1..]) {
          forall i | 0 <= i < |records|
            ensures Encodable(records[i].geom)
          {
            if i > 0 {
              assert records[i] == records[1..][i - 1];
            }
          }
        }
      }
    }
  }

  lemma AddParcelSucceeds(acc: Batch, parcel: Parcel)
    ensures AddParcel(acc, parcel).Ok? <==> RecordsEncodable(parcel.records)
  {
    var start := Progress(acc.elements, [], acc.after);
    AddRecordsSucceeds(start, parcel.records);
    var p := AddRecords(start, parcel.records);
    if p.Ok? {
      AddParcelDone(acc, parcel, p.value);
    } else {
      AddParcelFails(acc, parcel, p.error);
    }
  }

  lemma {:induction false} AddParcelsSucceeds(acc: Batch, ps: seq<Parcel>)
    ensures AddParcels(acc, ps).Ok? <==> ParcelsEncodable(ps)
    decreases |ps|
  {
    if ps != [] {
      AddParcelsUnfold(acc, ps);
      AddParcelSucceeds(acc, ps[0]);
      if AddParcel(acc, ps[0]).Ok? {
        AddParcelsSucceeds(AddParcel(acc, ps[0]).value, ps[1..]);
      }
      assert ParcelsEncodable(ps) <==> RecordsEncodable(ps[0].records) && ParcelsEncodable(ps[1..]) by {
        if RecordsEncodable(ps[0].records) && ParcelsEncodable(ps[1..]) {
          forall i | 0 <= i < |ps|
            ensures RecordsEncodable(ps[i].records)
          {
            if i > 0 {
              assert ps[i] == ps[1..][i - 1];
            }
          }
        }
      }
    }
  }

  lemma {:induction false} AddBlocksSucceeds(acc: Batch, sec: string, blocks: seq<string>, parcels: Parcels)
    ensures AddBlocks(acc, sec, blocks, parcels).Ok? <==> BlocksEncodable(parcels, sec, blocks)
    decreases |blocks|
  {
    if blocks != [] {
      AddBlocksUnfold(acc, sec, blocks, parcels);
      var ps := ParcelsOf(parcels, sec, blocks[0]);
      AddParcelsSucceeds(acc, ps);
      if AddParcels(acc, ps).Ok? {
        AddBlocksSucceeds(AddParcels(acc, ps).value, sec, blocks[1..], parcels);
      }
      BlocksEncodableSplit(parcels, sec, [blocks[0]], blocks[1..]);
      assert [blocks[0]] + blocks[1..] == blocks;
    }
  }

  lemma BlocksEncodableSplit(parcels: Parcels, sec: string, a: seq<string>, b: seq<string>)
    ensures BlocksEncodable(parcels, sec, a + b) <==> BlocksEncodable(parcels, sec, a) && BlocksEncodable(parcels, sec, b)
  {
    assert forall x :: x in a + b <==> x in a || x in b;
  }

  /** A chunk's file is written exactly when every record of every parcel
      of its blocks can be encoded. */
  lemma ChunkFileSucceeds(sec: string, chunk: seq<string>, parcels: Parcels)
    requires chunk != []
    ensures ChunkFile(sec, chunk, parcels).Ok? <==> BlocksEncodable(parcels, sec, chunk)
  {
    AddBlocksSucceeds(Batch([], Fresh), sec, chunk, parcels);
  }

  lemma {:induction false} SectionFilesComplete(written: seq<OscFile>, sec: string, chunks: seq<seq<string>>, parcels: Parcels)
    ensures SectionFiles(written, sec, chunks, parcels).Completed? <==> BlocksEncodable(parcels, sec, Concat(chunks))
    decreases |chunks|
  {
    if chunks != [] {
      BlocksEncodableSplit(parcels, sec, chunks[0], Concat(chunks[1..]));
      if chunks[0] == [] {
        SectionFilesComplete(written, sec, chunks[1..], parcels);
      } else {
        ChunkFileSucceeds(sec, chunks[0], parcels);
        if ChunkFile(sec, chunks[0], parcels).Ok? {
          SectionFilesComplete(written + [ChunkFile(sec, chunks[0], parcels).value], sec, chunks[1..], parcels);
        }
      }
    }
  }

  /** Sorting and chunking a section's blocks rearranges them into order
      and neither drops nor repeats any, so the chunks encode exactly when
      the blocks do. */
  lemma SectionBlocks(parcels: Parcels, sec: string, blocks: seq<string>)
    ensures multiset(Concat(Chunks(SortedBlocks(blocks)))) == multiset(blocks)
    ensures Sorted(Concat(Chunks(SortedBlocks(blocks))))
    ensures BlocksEncodable(parcels, sec, Concat(Chunks(SortedBlocks(blocks)))) <==> BlocksEncodable(parcels, sec, blocks)
  {
    var sorted := SortedBlocks(blocks);
    ChunksConcat(sorted);
    assert forall b :: b in sorted <==> b in blocks by {
      forall b
        ensures b in sorted <==> b in blocks
      {
        assert b in sorted <==> b in multiset(sorted);
        assert b in blocks <==> b in multiset(blocks);
      }
    }
  }

  lemma {:induction false} ExportSectionsComplete(written: seq<OscFile>, sections: seq<Section>, parcels: Parcels)
    ensures ExportSections(written, sections, parcels).Completed?
        <==> forall s :: 0 <= s < |sections| ==> BlocksEncodable(parcels, sections[s].name, sections[s].blocks)
    decreases |sections|
  {
    if sections != [] {
      var chunks := Chunks(SortedBlocks(sections[0].blocks));
      SectionFilesComplete(written, sections[0].name, chunks, parcels);
      SectionBlocks(parcels, sections[0].name, sections[0].blocks);
      var run := SectionFiles(written, sections[0].name, chunks, parcels);
      if run.Completed? {
        ExportSectionsComplete(run.written, sections[1..], parcels);
      }
      assert forall s :: 0 < s < |sections| ==> sections[s] == sections[1..][s - 1];
    }
  }

  /** The export runs to the end exactly when every record of every parcel
      of every block of every section can be encoded. Where a stopped run
      stops is stated by `SectionFilesInOrder`. */
  lemma ExportedCompletes(sections: seq<Section>, parcels: Parcels)
    ensures Exported(sections, parcels).Completed?
        <==> forall s :: 0 <= s < |sections| ==> BlocksEncodable(parcels, sections[s].name, sections[s].blocks)
  {
    ExportSectionsComplete([], sections, parcels);
  }
}
