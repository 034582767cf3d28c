/// Writing the change files (`export_buildings_to_osc`, lines 193-228 of
/// the source): for every section, its blocks sorted and cut into chunks
/// of five; for every chunk, one file with a fresh id generator, holding
/// for each block, each parcel in it and each of the parcel's records the
/// record's encoding, and after each parcel its building relation.
///
/// The grouping of records into sections, blocks and parcels is an input
/// here. The functions say what the export writes; the methods are the
/// export itself, proved to write exactly that.
module Export {

  import opened Elements
  import opened Ids
  import opened Features
  import opened Buildings
  import opened Sorting
  import opened Chunking

  /** A parcel (an `smp`) and its building records. */
  datatype Parcel = Parcel(smp: string, records: seq<Feature>)

  /** A section and the blocks found in it. */
  datatype Section = Section(name: string, blocks: seq<string>)

  /** The parcels of each (section, block) pair. */
  type Parcels = map<(string, string), seq<Parcel>>

  /** A pair that was never grouped has no parcels, as with the source's
      `defaultdict(list)`. */
  function ParcelsOf(parcels: Parcels, sec: string, block: string): seq<Parcel> {
    if (sec, block) in parcels then parcels[(sec, block)] else []
  }

  /** One written change file: its name and the elements of its `create`
      block, in document order. */
  datatype OscFile = OscFile(name: string, elements: seq<Element>)

  /** A run of the export: the files written, and whether it ran to the end
      or stopped at an encoding error (the files already written stay). */
  datatype Run = Completed(written: seq<OscFile>) | Stopped(written: seq<OscFile>, error: EncodeError)

  /** A file's elements so far, and the counters of its generator. */
  datatype Batch = Batch(elements: seq<Element>, after: Counters)

  /** A parcel in progress: the file's elements, the parts encoded so far for
      the building relation, and the counters. */
  datatype Progress = Progress(elements: seq<Element>, refs: seq<PartRef>, after: Counters)

  /** Each record encoded in turn, its elements appended to the file and its
      id and kind to the parcel's parts. */
  function AddRecords(acc: Progress, records: seq<Feature>): Result<Progress>
    decreases |records|
  {
    if records == [] then Ok(acc)
    else
      match Encode(records[0], acc.after)
      case Err(e) => Err(e)
      case Ok(em) =>
        AddRecords(Progress(acc.elements + em.encoded.parts,
                            acc.refs + [PartRef(em.encoded.id, em.encoded.kind)],
                            em.after),
                   records[1..])
  }

  /** A parcel's records, then its building relation. */
  function AddParcel(acc: Batch, parcel: Parcel): Result<Batch> {
    match AddRecords(Progress(acc.elements, [], acc.after), parcel.records)
    case Err(e) => Err(e)
    case Ok(p) =>
      Ok(Batch(p.elements + [RelationElement(BuildingRelation(parcel.smp, p.refs, p.after))],
               p.after.(rel := p.after.rel - 1)))
  }

  function AddParcels(acc: Batch, ps: seq<Parcel>): Result<Batch>
    decreases |ps|
  {
    if ps == [] then Ok(acc)
    else
      match AddParcel(acc, ps[0])
      case Err(e) => Err(e)
      case Ok(next) => AddParcels(next, ps[1..])
  }

  /** The parcels of each block of a chunk, block by block. */
  function AddBlocks(acc: Batch, sec: string, blocks: seq<string>, parcels: Parcels): Result<Batch>
    decreases |blocks|
  {
    if blocks == [] then Ok(acc)
    else
      match AddParcels(acc, ParcelsOf(parcels, sec, blocks[0]))
      case Err(e) => Err(e)
      case Ok(next) => AddBlocks(next, sec, blocks[1..], parcels)
  }

  /** The file of one chunk: a fresh generator, so every counter starts at
      zero. */
  function ChunkFile(sec: string, chunk: seq<string>, parcels: Parcels): Result<OscFile>
    requires chunk != []
  {
    match AddBlocks(Batch([], Fresh), sec, chunk, parcels)
    case Err(e) => Err(e)
    case Ok(b) => Ok(OscFile(FileName(sec, chunk), b.elements))
  }

  /** The files of a section's chunks, in order; an empty chunk is skipped
      and an encoding error stops the run. */
  function SectionFiles(written: seq<OscFile>, sec: string, chunks: seq<seq<string>>, parcels: Parcels): Run
    decreases |chunks|
  {
    if chunks == [] then Completed(written)
    else if chunks[0] == [] then SectionFiles(written, sec, chunks[1..], parcels)
    else
      match ChunkFile(sec, chunks[0], parcels)
      case Err(e) => Stopped(written, e)
      case Ok(file) => SectionFiles(written + [file], sec, chunks[1..], parcels)
  }

  /** Every section in turn, its blocks sorted and chunked. */
  function ExportSections(written: seq<OscFile>, sections: seq<Section>, parcels: Parcels): Run
    decreases |sections|
  {
    if sections == [] then Completed(written)
    else
      match SectionFiles(written, sections[0].name, Chunks(SortedBlocks(sections[0].blocks)), parcels)
      case Stopped(w, e) => Stopped(w, e)
      case Completed(w) => ExportSections(w, sections[1..], parcels)
  }

  function Exported(sections: seq<Section>, parcels: Parcels): Run {
    ExportSections([], sections, parcels)
  }

  lemma AddRecordsUnfold(acc: Progress, records: seq<Feature>)
    requires records != []
    ensures Encode(records[0], acc.after).Err? ==> AddRecords(acc, records) == Err(Encode(records[0], acc.after).error)
    ensures Encode(records[0], acc.after).Ok? ==>
      var em := Encode(records[0], acc.after).value;
      AddRecords(acc, records)
        == AddRecords(Progress(acc.elements + em.encoded.parts,
                               acc.refs + [PartRef(em.encoded.id, em.encoded.kind)],
                               em.after),
                      records[1..])
  {
  }

  lemma AddParcelFails(acc: Batch, parcel: Parcel, e: EncodeError)
    requires AddRecords(Progress(acc.elements, [], acc.after), parcel.records) == Err(e)
    ensures AddParcel(acc, parcel) == Err(e)
  {
  }

  lemma AddParcelDone(acc: Batch, parcel: Parcel, done: Progress)
    requires AddRecords(Progress(acc.elements, [], acc.after), parcel.records) == Ok(done)
    ensures AddParcel(acc, parcel)
      == Ok(Batch(done.elements + [RelationElement(BuildingRelation(parcel.smp, done.refs, done.after))],
                  done.after.(rel := done.after.rel - 1)))
  {
  }

  /** The body of the loop over a parcel's smps (lines 213-227): its
      records' elements, then its building relation. */
  method AddParcelElements(parcel: Parcel, elements: seq<Element>, ids: IdGenerator) returns (r: Result<Batch>)
    requires ids.Valid()
    modifies ids
    ensures ids.Valid()
    ensures r == AddParcel(Batch(elements, old(ids.State())), parcel)
    ensures r.Ok? ==> r.value.after == ids.State()
  {
    ghost var c := ids.State();
    ghost var start := Progress(elements, [], c);
    var lines := elements;
    var partMembers: seq<PartRef> := [];
    for k := 0 to |parcel.records|
      invariant ids.Valid()
      invariant AddRecords(start, parcel.records)
             == AddRecords(Progress(lines, partMembers, ids.State()), parcel.records[k..])
    {
      ghost var cur := Progress(lines, partMembers, ids.State());
      AddRecordsUnfold(cur, parcel.records[k..]);
      assert parcel.records[k..][0] == parcel.records[k];
      assert parcel.records[k..][1..] == parcel.records[k + 1..];
      var encoded := EncodeFeature(parcel.records[k], ids);
      if encoded.Err? {
        assert AddRecords(start, parcel.records) == Err(encoded.error);
        AddParcelFails(Batch(elements, c), parcel, encoded.error);
        return Err(encoded.error);
      }
      lines := lines + encoded.value.parts;
      partMembers := partMembers + [PartRef(encoded.value.id, encoded.value.kind)];
    }
    assert parcel.records[|parcel.records|..] == [];
    ghost var done := Progress(lines, partMembers, ids.State());
    assert AddRecords(start, parcel.records) == Ok(done);
    var relation := CreateBuildingRelation(parcel.smp, partMembers, ids);
    assert relation == BuildingRelation(parcel.smp, done.refs, done.after);
    assert ids.State() == done.after.(rel := done.after.rel - 1);
    AddParcelDone(Batch(elements, c), parcel, done);
    r := Ok(Batch(lines + [RelationElement(relation)], ids.State()));
    assert r == AddParcel(Batch(elements, c), parcel);
  }

  lemma AddParcelsUnfold(acc: Batch, ps: seq<Parcel>)
    requires ps != []
    ensures AddParcel(acc, ps[0]).Err? ==> AddParcels(acc, ps) == Err(AddParcel(acc, ps[0]).error)
    ensures AddParcel(acc, ps[0]).Ok? ==> AddParcels(acc, ps) == AddParcels(AddParcel(acc, ps[0]).value, ps[1..])
  {
  }

  /** The loop over the smps of one block (lines 212-227). */
  method AddBlockElements(sec: string, block: string, parcels: Parcels, elements: seq<Element>, ids: IdGenerator)
    returns (r: Result<Batch>)
    requires ids.Valid()
    modifies ids
    ensures ids.Valid()
    ensures r == AddParcels(Batch(elements, old(ids.State())), ParcelsOf(parcels, sec, block))
    ensures r.Ok? ==> r.value.after == ids.State()
  {
    ghost var start := Batch(elements, ids.State());
    var ps := ParcelsOf(parcels, sec, block);
    var lines := elements;
    for k := 0 to |ps|
      invariant ids.Valid()
      invariant AddParcels(start, ps) == AddParcels(Batch(lines, ids.State()), ps[k..])
    {
      AddParcelsUnfold(Batch(lines, ids.State()), ps[k..]);
      assert ps[k..][0] == ps[k];
      assert ps[k..][1..] == ps[k + 1..];
      var next := AddParcelElements(ps[k], lines, ids);
      if next.Err? {
        return Err(next.error);
      }
      lines := next.value.elements;
    }
    assert ps[|ps|..] == [];
    r := Ok(Batch(lines, ids.State()));
  }

  lemma AddBlocksUnfold(acc: Batch, sec: string, blocks: seq<string>, parcels: Parcels)
    requires blocks != []
    ensures var first := AddParcels(acc, ParcelsOf(parcels, sec, blocks[0]));
      && (first.Err? ==> AddBlocks(acc, sec, blocks, parcels) == Err(first.error))
      && (first.Ok? ==> AddBlocks(acc, sec, blocks, parcels) == AddBlocks(first.value, sec, blocks[1..], parcels))
  {
  }

  /** One chunk's file (lines 196-228): its name, a new id generator, and
      the elements of every parcel of every block of the chunk. */
  method WriteChunk(sec: string, chunk: seq<string>, parcels: Parcels) returns (r: Result<OscFile>)
    requires chunk != []
    ensures r == ChunkFile(sec, chunk, parcels)
  {
    var startBlock := chunk[0];
    var endBlock := chunk[|chunk| - 1];
    var filename := "sec" + sec + "_blocks_" + startBlock;
    if endBlock != startBlock {
      filename := filename + "-" + endBlock;
    }
    filename := filename + ".osc";
    var ids := new IdGenerator();
    var lines: seq<Element> := [];
    for b := 0 to |chunk|
      invariant ids.Valid()
      invariant AddBlocks(Batch([], Fresh), sec, chunk, parcels)
             == AddBlocks(Batch(lines, ids.State()), sec, chunk[b..], parcels)
    {
      AddBlocksUnfold(Batch(lines, ids.State()), sec, chunk[b..], parcels);
      assert chunk[b..][0] == chunk[b];
      assert chunk[b..][1..] == chunk[b + 1..];
      var next := AddBlockElements(sec, chunk[b], parcels, lines, ids);
      if next.Err? {
        return Err(next.error);
      }
      lines := next.value.elements;
    }
    assert chunk[|chunk|..] == [];
    assert filename == FileName(sec, chunk);
    r := Ok(OscFile(filename, lines));
  }

  lemma SectionFilesStep(written: seq<OscFile>, sec: string, chunks: seq<seq<string>>, k: nat, parcels: Parcels)
    requires k < |chunks|
    ensures chunks[k] == [] ==>
      SectionFiles(written, sec, chunks[k..], parcels) == SectionFiles(written, sec, chunks[k + 1..], parcels)
    ensures chunks[k] != [] && ChunkFile(sec, chunks[k], parcels).Err? ==>
      SectionFiles(written, sec, chunks[k..], parcels) == Stopped(written, ChunkFile(sec, chunks[k], parcels).error)
    ensures chunks[k] != [] && ChunkFile(sec, chunks[k], parcels).Ok? ==>
      SectionFiles(written, sec, chunks[k..], parcels)
        == SectionFiles(written + [ChunkFile(sec, chunks[k], parcels).value], sec, chunks[k + 1..], parcels)
  {
    assert chunks[k..][0] == chunks[k];
    assert chunks[k..][1..] == chunks[k + 1..];
  }

  /** One section (lines 194-228): its blocks sorted in place, then its
      chunks' files. */
  method ExportSection(section: Section, parcels: Parcels, written: seq<OscFile>) returns (run: Run)
    ensures run == SectionFiles(written, section.name, Chunks(SortedBlocks(section.blocks)), parcels)
  {
    var a := new string[|section.blocks|](i requires 0 <= i < |section.blocks| => section.blocks[i]);
    assert a[..] == section.blocks;
    SortBlocks(a);
    run := WriteChunks(section.name, a[..], parcels, written);
  }

  /** The loop over the chunks of a section's sorted blocks (lines
      195-228): a file for each slice `blocks[i : i + 5]`, `i` stepping by
      five. */
  method WriteChunks(sec: string, blocks: seq<string>, parcels: Parcels, written: seq<OscFile>) returns (run: Run)
    ensures run == SectionFiles(written, sec, Chunks(blocks), parcels)
  {
    ghost var chunks := Chunks(blocks);
    var files := written;
    for k := 0 to (|blocks| + ChunkSize - 1) / ChunkSize
      invariant SectionFiles(written, sec, chunks, parcels) == SectionFiles(files, sec, chunks[k..], parcels)
    {
      var i := ChunkSize * k;
      ChunkStart(|blocks|, k);
      var chunk := blocks[i .. Min(i + ChunkSize, |blocks|)];
      ChunkAt(blocks, k);
      SectionFilesStep(files, sec, chunks, k, parcels);
      if chunk == [] {
        continue;
      }
      var file := WriteChunk(sec, chunk, parcels);
      if file.Err? {
        return Stopped(files, file.error);
      }
      files := files + [file.value];
    }
    assert chunks[|chunks|..] == [];
    run := Completed(files);
  }

  /** The loop over the sections (lines 193-228). */
  method ExportBuildingsToOsc(sections: seq<Section>, parcels: Parcels) returns (run: Run)
    ensures run == Exported(sections, parcels)
  {
    var files: seq<OscFile> := [];
    for s := 0 to |sections|
      invariant Exported(sections, parcels) == ExportSections(files, sections[s..], parcels)
    {
      assert sections[s..][0] == sections[s];
      assert sections[s..][1..] == sections[s + 1..];
      var sectionRun := ExportSection(sections[s], parcels, files);
      if sectionRun.Stopped? {
        return sectionRun;
      }
      files := sectionRun.written;
    }
    assert sections[|sections|..] == [];
    run := Completed(files);
  }
}
