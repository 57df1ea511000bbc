/**
 The documents and repositories the importer works with. The submission,
 project and sample repositories are only read, so they are one value, a
 `Snapshot`, taken as unchanged for as long as a service uses it; the
 accession-id repository is written to, so it is an object whose stored
 documents change.
 */
module Repository {
  import opened Wrappers
  import opened Sequences

  /** A submission document; only its identifier matters to the importer. */
  datatype Submission = Submission(id: string)

  /** A project document; its BioStudies accession may be null. */
  datatype Project = Project(accession: Option<string>)

  /** A sample document; its BioSamples accession may be null. */
  datatype Sample = Sample(accession: Option<string>)

  /**
   The record the importer creates: the submission id, the project's accession
   and the accessions of the submission's samples, in lookup order. Documents
   already stored may hold a null project accession, so it is optional here too.
   */
  datatype AccessionIdWrapper = AccessionIdWrapper(
    submissionId: string,
    bioStudiesAccessionId: Option<string>,
    bioSamplesAccessionIds: seq<Option<string>>)

  /**
   The three read-only repositories as one run sees them: all submissions in
   `findAll` order, the project of each submission that has one, and the
   samples of each submission that has any.
   */
  datatype Snapshot = Snapshot(
    submissions: seq<Submission>,
    projects: map<string, Project>,
    samples: map<string, seq<Sample>>)

  /** `Submission::getId`. */
  function SubmissionId(s: Submission): string { s.id }

  /** `Sample::getAccession`. */
  function SampleAccession(s: Sample): Option<string> { s.accession }

  /** `AccessionIdWrapper::getSubmissionId`. */
  function WrapperSubmissionId(w: AccessionIdWrapper): string { w.submissionId }

  /** `projectRepository.findOneBySubmissionId`: `None` stands for a null project. */
  function FindProject(snapshot: Snapshot, submissionId: string): Option<Project>
  {
    if submissionId in snapshot.projects then Some(snapshot.projects[submissionId]) else None
  }

  /** `sampleRepository.findBySubmissionId`: the empty list when there are none. */
  function FindSamples(snapshot: Snapshot, submissionId: string): seq<Sample>
  {
    if submissionId in snapshot.samples then snapshot.samples[submissionId] else []
  }

  /** The submission ids of stored wrappers, in store order. */
  function RecordedIds(wrappers: seq<AccessionIdWrapper>): (ids: seq<string>)
    ensures |ids| == |wrappers|
    ensures forall i :: 0 <= i < |wrappers| ==> ids[i] == wrappers[i].submissionId
  {
    Map(WrapperSubmissionId, wrappers)
  }

  /**
   `accessionIdRepository.findBySubmissionId`: the first stored wrapper with that
   submission id, if any.
   */
  function FindBySubmissionId(wrappers: seq<AccessionIdWrapper>, submissionId: string): (w: Option<AccessionIdWrapper>)
    ensures w.Some? <==> submissionId in RecordedIds(wrappers)
    ensures w.Some? ==> w.value in wrappers && w.value.submissionId == submissionId
  {
    if wrappers == [] then None
    else if wrappers[0].submissionId == submissionId then Some(wrappers[0])
    else
      assert RecordedIds(wrappers) == [wrappers[0].submissionId] + RecordedIds(wrappers[1..]) by {
        MapAppend(WrapperSubmissionId, [wrappers[0]], wrappers[1..]);
        assert wrappers == [wrappers[0]] + wrappers[1..];
      }
      FindBySubmissionId(wrappers[1..], submissionId)
  }

  /** The wrapper found is the first stored one with that submission id. */
  lemma {:induction false} FindBySubmissionIdIsFirst(wrappers: seq<AccessionIdWrapper>, submissionId: string, k: nat)
    requires k < |wrappers| && wrappers[k].submissionId == submissionId
    requires forall j :: 0 <= j < k ==> wrappers[j].submissionId != submissionId
    ensures FindBySubmissionId(wrappers, submissionId) == Some(wrappers[k])
  {
    if k > 0 {
      FindBySubmissionIdIsFirst(wrappers[1..], submissionId, k - 1);
    }
  }

  /**
   The accession-id repository: an append-only collection of wrappers. `saves`
   records the batch written by each `save` call, so that callers can state how
   many calls they made.
   */
  class AccessionIdRepository {
    var wrappers: seq<AccessionIdWrapper>
    ghost var saves: seq<seq<AccessionIdWrapper>>

    constructor (initial: seq<AccessionIdWrapper>)
      ensures wrappers == initial && saves == []
    {
      wrappers := initial;
      saves := [];
    }

    /** `save(Iterable)`: inserts the whole batch after the stored wrappers, leaving those unchanged. */
    method Save(batch: seq<AccessionIdWrapper>)
      modifies this
      ensures wrappers == old(wrappers) + batch
      ensures saves == old(saves) + [batch]
    {
      wrappers := wrappers + batch;
      saves := saves + [batch];
    }
  }
}
