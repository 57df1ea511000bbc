/**
 The reconciliation done by `AccessionIdImporterService`: find the submissions
 whose project and samples are accessioned but that have no accession-id
 wrapper yet (the diff), then build a wrapper for each of them and store all
 the wrappers in one batch (the persist step).

 The functions below specify both steps on values; the class at the end runs
 them against the accession-id repository object.
 */
module AccessionIdImporter {
  import opened Wrappers
  import opened Sequences
  import opened Repository

  // ---------------------------------------------------------------------------
  // The diff's two filters
  // ---------------------------------------------------------------------------

  /** The first filter of the diff: the project exists and its accession is not null. */
  predicate HasAccessionedProject(snapshot: Snapshot, submissionId: string)
  {
    FindProject(snapshot, submissionId).Some? && FindProject(snapshot, submissionId).value.accession.Some?
  }

  /**
   The second filter of the diff: the sample list is non-empty and so is the list
   of its accessions. The accessions are mapped without dropping nulls, so the
   second half adds nothing to the first.
   */
  predicate HasSamples(snapshot: Snapshot, submissionId: string)
    ensures HasSamples(snapshot, submissionId) <==> |FindSamples(snapshot, submissionId)| > 0
  {
    var samples := FindSamples(snapshot, submissionId);
    |samples| > 0 && |Map(SampleAccession, samples)| > 0
  }

  /**
   A submission id that passes both filters of the diff: in repository terms, a
   project with a non-null accession and at least one sample, whatever the
   samples' accessions are.
   */
  predicate IsCandidate(snapshot: Snapshot, submissionId: string)
    ensures IsCandidate(snapshot, submissionId) <==>
      && submissionId in snapshot.projects
      && snapshot.projects[submissionId].accession.Some?
      && submissionId in snapshot.samples
      && |snapshot.samples[submissionId]| > 0
  {
    HasAccessionedProject(snapshot, submissionId) && HasSamples(snapshot, submissionId)
  }

  // ---------------------------------------------------------------------------
  // The diff
  // ---------------------------------------------------------------------------

  /** The ids of the submissions that pass both filters, in `findAll` order: the stream pipeline. */
  function CandidateIds(snapshot: Snapshot): (ids: seq<string>)
    ensures |ids| <= |snapshot.submissions|
    ensures forall i :: 0 <= i < |ids| ==> IsCandidate(snapshot, ids[i])
  {
    var kept := Filter((s: Submission) => HasSamples(snapshot, s.id),
                       Filter((s: Submission) => HasAccessionedProject(snapshot, s.id), snapshot.submissions));
    assert forall i :: 0 <= i < |kept| ==> kept[i] in kept;
    Map(SubmissionId, kept)
  }

  /** `List.removeAll(c)`: drops every element that `c` contains, keeping the order of the rest. */
  function RemoveAll(list: seq<string>, c: seq<string>): (r: seq<string>)
    ensures forall x :: x in r ==> x in list && x !in c
    ensures forall x :: x in list && x !in c ==> x in r
  {
    Filter((id: string) => id !in c, list)
  }

  /**
   `getSubmissionIdsNotExistsInAccessionIdWrapper` on values: the candidate ids
   with every id that a stored wrapper already carries removed.
   */
  function Diff(snapshot: Snapshot, stored: seq<AccessionIdWrapper>): (ids: seq<string>)
    ensures |ids| <= |snapshot.submissions|
    ensures forall x :: x in ids ==> x in CandidateIds(snapshot) && x !in RecordedIds(stored)
  {
    RemoveAll(CandidateIds(snapshot), RecordedIds(stored))
  }

  /**
   An id is in the diff exactly when some submission has it, it passes both
   filters and no stored wrapper carries it.
   */
  lemma DiffMembership(snapshot: Snapshot, stored: seq<AccessionIdWrapper>)
    ensures forall x :: x in Diff(snapshot, stored) ==> x in Map(SubmissionId, snapshot.submissions)
    ensures forall x :: x in Diff(snapshot, stored) ==> HasAccessionedProject(snapshot, x) && HasSamples(snapshot, x)
    ensures forall x :: x in Diff(snapshot, stored) ==> x !in RecordedIds(stored)
    ensures forall x :: x in Map(SubmissionId, snapshot.submissions) && IsCandidate(snapshot, x) && x !in RecordedIds(stored)
                        ==> x in Diff(snapshot, stored)
  {
    DiffIsFilteredSubmissionIds(snapshot, stored);
  }

  /**
   The stream pipeline is the list of all submission ids, in `findAll` order,
   kept when they pass both filters: every qualifying submission's id is there,
   once per submission, and nothing else.
   */
  lemma CandidateIdsIsFilteredIds(snapshot: Snapshot)
    ensures CandidateIds(snapshot) == Filter((id: string) => IsCandidate(snapshot, id), Map(SubmissionId, snapshot.submissions))
  {
    var both := (s: Submission) => IsCandidate(snapshot, s.id);
    FilterFilter((s: Submission) => HasAccessionedProject(snapshot, s.id), (s: Submission) => HasSamples(snapshot, s.id), both, snapshot.submissions);
    MapFilter(SubmissionId, both, (id: string) => IsCandidate(snapshot, id), snapshot.submissions);
  }

  /**
   The diff is the list of all submission ids, in their original order, kept
   when they pass both filters and are not yet recorded.
   */
  lemma DiffIsFilteredSubmissionIds(snapshot: Snapshot, stored: seq<AccessionIdWrapper>)
    ensures Diff(snapshot, stored) == Filter((id: string) => IsCandidate(snapshot, id) && id !in RecordedIds(stored), Map(SubmissionId, snapshot.submissions))
  {
    CandidateIdsIsFilteredIds(snapshot);
    FilterFilter((id: string) => IsCandidate(snapshot, id), (id: string) => id !in RecordedIds(stored), (id: string) => IsCandidate(snapshot, id) && id !in RecordedIds(stored),
                 Map(SubmissionId, snapshot.submissions));
  }

  /**
   The diff keeps every occurrence of a qualifying id, duplicates included, and
   no occurrence of any other id.
   */
  lemma DiffCount(snapshot: Snapshot, stored: seq<AccessionIdWrapper>, x: string)
    ensures multiset(Diff(snapshot, stored))[x]
         == if IsCandidate(snapshot, x) && x !in RecordedIds(stored)
            then multiset(Map(SubmissionId, snapshot.submissions))[x]
            else 0
  {
    DiffIsFilteredSubmissionIds(snapshot, stored);
    FilterCount((id: string) => IsCandidate(snapshot, id) && id !in RecordedIds(stored), Map(SubmissionId, snapshot.submissions), x);
  }

  // ---------------------------------------------------------------------------
  // The persist step
  // ---------------------------------------------------------------------------

  /**
   The body of the persist loop for one submission id: the wrapper it adds, if
   any. A wrapper is built exactly when the id would pass the diff's filters,
   and it carries the id, the project's accession and one sample accession per
   sample, in lookup order, null accessions included.
   */
  function BuildWrapper(snapshot: Snapshot, submissionId: string): (w: Option<AccessionIdWrapper>)
    ensures w.Some? <==> IsCandidate(snapshot, submissionId)
    ensures w.Some? ==>
      && w.value.submissionId == submissionId
      && FindProject(snapshot, submissionId).Some?
      && w.value.bioStudiesAccessionId == FindProject(snapshot, submissionId).value.accession
      && w.value.bioStudiesAccessionId.Some?
      && |w.value.bioSamplesAccessionIds| == |FindSamples(snapshot, submissionId)|
      && forall i :: 0 <= i < |FindSamples(snapshot, submissionId)| ==>
           w.value.bioSamplesAccessionIds[i] == FindSamples(snapshot, submissionId)[i].accession
  {
    var project := FindProject(snapshot, submissionId);
    var biostudiesAccessionId := if project.Some? then project.value.accession else None;
    var samples := FindSamples(snapshot, submissionId);
    var biosamplesAccessionIds := if |samples| > 0 then Map(SampleAccession, samples) else [];
    if biostudiesAccessionId.Some? && |biosamplesAccessionIds| > 0 then
      Some(AccessionIdWrapper(submissionId, biostudiesAccessionId, biosamplesAccessionIds))
    else
      None
  }

  /** The wrapper list the persist loop accumulates for `submissionIds`. */
  function WrappersToAdd(snapshot: Snapshot, submissionIds: seq<string>): (ws: seq<AccessionIdWrapper>)
    ensures |ws| <= |submissionIds|
    ensures forall k :: 0 <= k < |ws| ==> BuildWrapper(snapshot, ws[k].submissionId) == Some(ws[k])
  {
    if submissionIds == [] then []
    else
      var last := submissionIds[|submissionIds| - 1];
      WrappersToAdd(snapshot, submissionIds[..|submissionIds| - 1])
        + (match BuildWrapper(snapshot, last) case Some(w) => [w] case None => [])
  }

  /**
   The batch holds one wrapper per input id that qualifies, in input order: its
   submission ids are the input ids filtered by the diff's two conditions.
   */
  lemma {:induction false} WrappersToAddIds(snapshot: Snapshot, submissionIds: seq<string>)
    ensures RecordedIds(WrappersToAdd(snapshot, submissionIds)) == Filter((id: string) => IsCandidate(snapshot, id), submissionIds)
  {
    if submissionIds != [] {
      var init, last := submissionIds[..|submissionIds| - 1], submissionIds[|submissionIds| - 1];
      WrappersToAddIds(snapshot, init);
      var tail := match BuildWrapper(snapshot, last) case Some(w) => [w] case None => [];
      MapAppend(WrapperSubmissionId, WrappersToAdd(snapshot, init), tail);
    }
  }

  /**
   Each occurrence of a qualifying id in the input gets its own wrapper, and
   other ids get none.
   */
  lemma WrappersToAddCount(snapshot: Snapshot, submissionIds: seq<string>, x: string)
    ensures multiset(RecordedIds(WrappersToAdd(snapshot, submissionIds)))[x]
         == if IsCandidate(snapshot, x) then multiset(submissionIds)[x] else 0
  {
    WrappersToAddIds(snapshot, submissionIds);
    FilterCount((id: string) => IsCandidate(snapshot, id), submissionIds, x);
  }

  // ---------------------------------------------------------------------------
  // Running the two steps in sequence
  // ---------------------------------------------------------------------------

  /**
   After the batch for `submissionIds` is appended to the store, every input id
   that qualifies is recorded.
   */
  lemma PersistRecordsCandidates(snapshot: Snapshot, stored: seq<AccessionIdWrapper>, submissionIds: seq<string>)
    ensures forall x :: x in submissionIds && IsCandidate(snapshot, x) ==>
              x in RecordedIds(stored + WrappersToAdd(snapshot, submissionIds))
  {
    WrappersToAddIds(snapshot, submissionIds);
    MapAppend(WrapperSubmissionId, stored, WrappersToAdd(snapshot, submissionIds));
  }

  /**
   Persisting the diff's output, with the snapshot unchanged, leaves a stored
   wrapper for every id the diff returned.
   */
  lemma PersistedDiffIdsAreFound(snapshot: Snapshot, stored: seq<AccessionIdWrapper>)
    ensures forall x :: x in Diff(snapshot, stored) ==>
              FindBySubmissionId(stored + WrappersToAdd(snapshot, Diff(snapshot, stored)), x).Some?
  {
    DiffMembership(snapshot, stored);
    PersistRecordsCandidates(snapshot, stored, Diff(snapshot, stored));
  }

  /**
   Running the diff again after persisting its output, with the snapshot
   unchanged, returns nothing: the import is idempotent.
   */
  lemma SecondDiffIsEmpty(snapshot: Snapshot, stored: seq<AccessionIdWrapper>)
    ensures Diff(snapshot, stored + WrappersToAdd(snapshot, Diff(snapshot, stored))) == []
  {
    var first := Diff(snapshot, stored);
    var after := stored + WrappersToAdd(snapshot, first);
    var ids := Map(SubmissionId, snapshot.submissions);
    PersistRecordsCandidates(snapshot, stored, first);
    MapAppend(WrapperSubmissionId, stored, WrappersToAdd(snapshot, first));
    DiffMembership(snapshot, stored);
    forall x | x in ids
      ensures !(IsCandidate(snapshot, x) && x !in RecordedIds(after))
    {
      if IsCandidate(snapshot, x) && x !in RecordedIds(stored) {
        assert x in first;
      }
    }
    FilterNone((id: string) => IsCandidate(snapshot, id) && id !in RecordedIds(after), ids);
    DiffIsFilteredSubmissionIds(snapshot, after);
  }

  // ---------------------------------------------------------------------------
  // The service
  // ---------------------------------------------------------------------------

  /** `AccessionIdImporterService`: the repositories it reads and the one it writes. */
  class AccessionIdImporterService {
    const snapshot: Snapshot
    const accessionIdRepository: AccessionIdRepository

    constructor (snapshot: Snapshot, accessionIdRepository: AccessionIdRepository)
      ensures this.snapshot == snapshot && this.accessionIdRepository == accessionIdRepository
    {
      this.snapshot := snapshot;
      this.accessionIdRepository := accessionIdRepository;
    }

    /** `importNotExistingAccessionIds`: the diff followed by the persist step. */
    method ImportNotExistingAccessionIds()
      modifies accessionIdRepository
      ensures accessionIdRepository.wrappers
           == old(accessionIdRepository.wrappers) + WrappersToAdd(snapshot, Diff(snapshot, old(accessionIdRepository.wrappers)))
      ensures accessionIdRepository.saves
           == old(accessionIdRepository.saves) + [WrappersToAdd(snapshot, Diff(snapshot, old(accessionIdRepository.wrappers)))]
      ensures Diff(snapshot, accessionIdRepository.wrappers) == []
    {
      var submissionIds := GetSubmissionIdsNotExistsInAccessionIdWrapper();
      PersistMissingSubmissionData(submissionIds);
      SecondDiffIsEmpty(snapshot, old(accessionIdRepository.wrappers));
    }

    /**
     `getSubmissionIdsNotExistsInAccessionIdWrapper`: the candidate ids, then an
     in-place `removeAll` of the ids the stored wrappers carry.
     */
    method GetSubmissionIdsNotExistsInAccessionIdWrapper() returns (submissionIds: seq<string>)
      ensures submissionIds == Diff(snapshot, accessionIdRepository.wrappers)
      ensures forall x :: x in submissionIds ==> FindBySubmissionId(accessionIdRepository.wrappers, x).None?
      ensures forall x :: x in submissionIds ==> IsCandidate(snapshot, x)
    {
      submissionIds := CandidateIds(snapshot);
      var submissionIdsFromAccessionIdRepo := RecordedIds(accessionIdRepository.wrappers);
      submissionIds := RemoveAll(submissionIds, submissionIdsFromAccessionIdRepo);
      DiffMembership(snapshot, accessionIdRepository.wrappers);
    }

    /**
     `persistMissingSubmissionData`: builds the wrappers one id at a time into an
     accumulator, then saves the accumulated batch in one call.
     */
    method PersistMissingSubmissionData(submissionIds: seq<string>)
      modifies accessionIdRepository
      ensures accessionIdRepository.wrappers == old(accessionIdRepository.wrappers) + WrappersToAdd(snapshot, submissionIds)
      ensures accessionIdRepository.saves == old(accessionIdRepository.saves) + [WrappersToAdd(snapshot, submissionIds)]
    {
      var accessionIdWrappersToAdd: seq<AccessionIdWrapper> := [];
      for i := 0 to |submissionIds|
        invariant accessionIdWrappersToAdd == WrappersToAdd(snapshot, submissionIds[..i])
      {
        var submissionId := submissionIds[i];
        var biostudiesAccessionId: Option<string> := None;
        var biosamplesAccessionIds: seq<Option<string>> := [];

        var project := FindProject(snapshot, submissionId);
        if project.Some? {
          biostudiesAccessionId := project.value.accession;
        }

        var samples := FindSamples(snapshot, submissionId);
        if |samples| > 0 {
          biosamplesAccessionIds := Map(SampleAccession, samples);
        }

        if biostudiesAccessionId.Some? && |biosamplesAccessionIds| > 0 {
          var accessionIdWrapper := AccessionIdWrapper(submissionId, biostudiesAccessionId, biosamplesAccessionIds);
          accessionIdWrappersToAdd := accessionIdWrappersToAdd + [accessionIdWrapper];
        }
        assert submissionIds[..i + 1][..i] == submissionIds[..i];
      }
      assert submissionIds[..|submissionIds|] == submissionIds;
      accessionIdRepository.Save(accessionIdWrappersToAdd);
    }
  }

  // ---------------------------------------------------------------------------
  // A sample whose accession is null still counts
  // ---------------------------------------------------------------------------

  /**
   A submission whose project is accessioned and whose samples all have a null
   accession still qualifies, and its wrapper holds those null accessions.
   */
  lemma NullSampleAccessionsAreKept(snapshot: Snapshot, submissionId: string)
    requires HasAccessionedProject(snapshot, submissionId)
    requires |FindSamples(snapshot, submissionId)| > 0
    requires forall s :: s in FindSamples(snapshot, submissionId) ==> s.accession.None?
    ensures IsCandidate(snapshot, submissionId)
    ensures BuildWrapper(snapshot, submissionId).Some?
    ensures forall a :: a in BuildWrapper(snapshot, submissionId).value.bioSamplesAccessionIds ==> a.None?
  {
  }
}
