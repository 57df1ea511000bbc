# Accession-id importer, modelled in Dafny

The accession-id importer reconciles submissions with the accession-id
collection. Each document in that collection is an `AccessionIdWrapper`. It
holds a submission id, the BioStudies accession of the submission's project
and the BioSamples accessions of its samples. The importer runs in two steps.

- **Diff.** It reads all submissions. It keeps those whose project exists with
  a non-null accession and whose sample list is non-empty. It maps them to
  their ids, in `findAll` order. Then it removes, with `removeAll`, every id
  that a stored wrapper already carries.
- **Persist.** For each id it looks up the project accession and the sample
  accessions. It builds a wrapper when the project accession is non-null and
  the list of sample accessions is non-empty. It collects these wrappers in a
  list and saves the list in one call.

The project has four modules:

- `Wrappers` (wrappers.dfy): `Option`, standing in for a Java reference that
  may be null.
- `Sequences` (sequences.dfy): order-keeping `Filter` and `Map`, the
  operations of the stream pipelines, with the laws that relate them
  (concatenation, fusion of two filters, filter/map commutation, occurrence
  counts).
- `Repository` (repository.dfy): the documents and the repositories.
  - The three repositories that are only read become one value, a `Snapshot`, fixed for the service's lifetime:
    the submissions in `findAll` order, a map from submission id to project,
    and a map from submission id to samples.
  - The accession-id repository is the class `AccessionIdRepository`. Its
    `wrappers` field is the stored collection and `Save` appends to it. A
    ghost log `saves` records one entry per `save` call.
- `AccessionIdImporter` (importer.dfy): the two steps as functions on values,
  the properties proved about them, and the class
  `AccessionIdImporterService`. Its three methods run the steps against the
  repository object. The persist method is the loop of the source, appending to
  an accumulator, and is proved equal to the function `WrappersToAdd`.

Where the code's behaviour might surprise a reader, the model follows the code:

- The diff does not remove duplicates. A submission id listed twice is
  returned twice if it qualifies (`DiffCount`).
- A sample whose accession is null still counts. Both steps map
  `Sample::getAccession` without dropping nulls, so "the list of sample
  accessions is non-empty" holds exactly when the submission has a sample.
  A stored wrapper may therefore hold null sample accessions
  (`NullSampleAccessionsAreKept`).
- There is no per-id skipping on a failed lookup and no "store unavailable"
  error. The code catches nothing, so a repository exception ends the run.

## Model

| member | source | states |
|---|---|---|
| `Sequences.Filter` | src/main/java/uk/ac/ebi/subs/accessionidimporter/AccessionIdImporterService.java:52-65 | the result holds exactly the elements of the input that pass the predicate (both directions) and is no longer than the input |
| `Sequences.Map` | src/main/java/uk/ac/ebi/subs/accessionidimporter/AccessionIdImporterService.java:94 | the result has the input's length and, position by position, the image of the input's element; the same `Map` models `.map(Submission::getId)` at line 64, `.map(AccessionIdWrapper::getSubmissionId)` at line 73 and `.map(Sample::getAccession)` at lines 61 and 94, so order is kept and null accessions stay |
| `Repository.FindProject` | src/main/java/uk/ac/ebi/subs/accessionidimporter/AccessionIdImporterService.java:87 | no contract: the project lookup, `None` for a null project; its meaning for the importer is carried by the `ensures` of `AccessionIdImporter.IsCandidate` and `AccessionIdImporter.BuildWrapper` (the same lookup at line 55) |
| `Repository.FindSamples` | src/main/java/uk/ac/ebi/subs/accessionidimporter/AccessionIdImporterService.java:92 | no contract: the sample lookup, the empty list when there are none; its meaning is carried by the `ensures` of `AccessionIdImporter.HasSamples`, `AccessionIdImporter.IsCandidate` and `AccessionIdImporter.BuildWrapper` (the same lookup at line 59) |
| `Repository.RecordedIds` | src/main/java/uk/ac/ebi/subs/accessionidimporter/AccessionIdImporterService.java:72-73 | the recorded ids have one entry per stored wrapper, in store order, each the submission id of the wrapper at that position |
| `Repository.FindBySubmissionId` | src/test/java/uk/ac/ebi/subs/accessionidimporter/AccessionIdImporterServiceTest.java:74 | a stored wrapper is found exactly when its submission id is among the recorded ids, and what is found is a stored wrapper with that id |
| `Repository.FindBySubmissionIdIsFirst` | src/test/java/uk/ac/ebi/subs/accessionidimporter/AccessionIdImporterServiceTest.java:74 | when several stored wrappers carry the id, the lookup returns the first of them in store order |
| `Repository.AccessionIdRepository.Save` | src/main/java/uk/ac/ebi/subs/accessionidimporter/AccessionIdImporterService.java:111 | the batch is appended after the stored wrappers, which are left unchanged, and the call is logged as one save |
| `AccessionIdImporter.HasAccessionedProject` | src/main/java/uk/ac/ebi/subs/accessionidimporter/AccessionIdImporterService.java:54-57 | no contract: the first filter, "the project exists and its accession is not null"; its meaning in repository terms is stated by the `ensures` of `AccessionIdImporter.IsCandidate` |
| `AccessionIdImporter.HasSamples` | src/main/java/uk/ac/ebi/subs/accessionidimporter/AccessionIdImporterService.java:58-62 | the second filter holds exactly when the sample list is non-empty: mapping to accessions keeps nulls, so the accession-list check adds nothing |
| `AccessionIdImporter.IsCandidate` | src/main/java/uk/ac/ebi/subs/accessionidimporter/AccessionIdImporterService.java:54-62 | both filters hold exactly when the submission has a project with a non-null accession and at least one sample, whatever the samples' accessions are |
| `AccessionIdImporter.CandidateIds` | src/main/java/uk/ac/ebi/subs/accessionidimporter/AccessionIdImporterService.java:52-65 | the pipeline's output is no longer than the submission list and every id in it passes both filters; `CandidateIdsIsFilteredIds` gives the full ordered statement |
| `AccessionIdImporter.CandidateIdsIsFilteredIds` | src/main/java/uk/ac/ebi/subs/accessionidimporter/AccessionIdImporterService.java:52-65 | the pipeline's output equals the ids of all submissions, in `findAll` order, filtered by "passes both filters": every qualifying submission's id is there, once per submission, and nothing else |
| `AccessionIdImporter.Diff` | src/main/java/uk/ac/ebi/subs/accessionidimporter/AccessionIdImporterService.java:48-78 | the diff is no longer than the submission list, and each of its ids is a candidate id that no stored wrapper carries; its full characterisation is `DiffMembership`, `DiffIsFilteredSubmissionIds` and `DiffCount` |
| `AccessionIdImporter.RemoveAll` | src/main/java/uk/ac/ebi/subs/accessionidimporter/AccessionIdImporterService.java:72-75 | `removeAll` keeps exactly the ids not among the recorded ones (both directions) |
| `AccessionIdImporter.DiffMembership` | src/main/java/uk/ac/ebi/subs/accessionidimporter/AccessionIdImporterService.java:48-78 | every id of the diff is the id of some submission, has a project with a non-null accession, has a non-empty sample list and is not the submission id of any stored wrapper; conversely every submission id with those properties is in the diff |
| `AccessionIdImporter.DiffIsFilteredSubmissionIds` | src/main/java/uk/ac/ebi/subs/accessionidimporter/AccessionIdImporterService.java:52-75 | the diff equals the ids of all submissions, in their original order, filtered by "passes both filters and is not recorded": the two stream filters and `removeAll` act as one order-keeping filter |
| `AccessionIdImporter.DiffCount` | src/main/java/uk/ac/ebi/subs/accessionidimporter/AccessionIdImporterService.java:52-75 | a qualifying, unrecorded id occurs in the diff as often as among the submissions (duplicates survive); any other id occurs zero times |
| `AccessionIdImporter.BuildWrapper` | src/main/java/uk/ac/ebi/subs/accessionidimporter/AccessionIdImporterService.java:84-108 | a wrapper is built for an id exactly when the id passes the diff's two filters; it carries that id, the project's non-null accession, and the sample accessions, same length and same order as the sample lookup |
| `AccessionIdImporter.WrappersToAdd` | src/main/java/uk/ac/ebi/subs/accessionidimporter/AccessionIdImporterService.java:81-109 | the accumulated list is no longer than the input and each of its wrappers is exactly the wrapper built for its own submission id |
| `AccessionIdImporter.WrappersToAddIds` | src/main/java/uk/ac/ebi/subs/accessionidimporter/AccessionIdImporterService.java:81-109 | the submission ids of the batch are the input ids that qualify, in input order: one wrapper per qualifying input id |
| `AccessionIdImporter.WrappersToAddCount` | src/main/java/uk/ac/ebi/subs/accessionidimporter/AccessionIdImporterService.java:83-104 | a qualifying id gets as many wrappers as it has occurrences in the input; any other id gets none |
| `AccessionIdImporter.PersistRecordsCandidates` | src/main/java/uk/ac/ebi/subs/accessionidimporter/AccessionIdImporterService.java:97-111 | after the batch is appended to any stored collection, every qualifying input id is recorded |
| `AccessionIdImporter.PersistedDiffIdsAreFound` | src/test/java/uk/ac/ebi/subs/accessionidimporter/AccessionIdImporterServiceTest.java:69-75 | persisting the diff's output, with the lookups unchanged, gives every id of the diff a stored wrapper that `findBySubmissionId` finds |
| `AccessionIdImporter.SecondDiffIsEmpty` | src/main/java/uk/ac/ebi/subs/accessionidimporter/AccessionIdImporterService.java:72-111 | after the diff's output is persisted, with the lookups unchanged, a second diff returns the empty list |
| `AccessionIdImporter.NullSampleAccessionsAreKept` | src/main/java/uk/ac/ebi/subs/accessionidimporter/AccessionIdImporterService.java:58-62 | a submission with an accessioned project and only null-accession samples passes the diff's filters and gets a wrapper whose sample accessions are all null |
| `AccessionIdImporter.AccessionIdImporterService.constructor` | src/main/java/uk/ac/ebi/subs/accessionidimporter/AccessionIdImporterService.java:31-37 | the service holds the given repositories |
| `AccessionIdImporter.AccessionIdImporterService.ImportNotExistingAccessionIds` | src/main/java/uk/ac/ebi/subs/accessionidimporter/AccessionIdImporterService.java:39-46 | the store gains, in one save, the wrappers built for the diff's output, after the wrappers already stored; afterwards, with the lookups unchanged, the diff is empty |
| `AccessionIdImporter.AccessionIdImporterService.GetSubmissionIdsNotExistsInAccessionIdWrapper` | src/main/java/uk/ac/ebi/subs/accessionidimporter/AccessionIdImporterService.java:48-78 | the result is the diff of the snapshot against the stored wrappers: no returned id is found by `findBySubmissionId`, and every returned id passes both filters |
| `AccessionIdImporter.AccessionIdImporterService.PersistMissingSubmissionData` | src/main/java/uk/ac/ebi/subs/accessionidimporter/AccessionIdImporterService.java:80-112 | the loop's accumulator equals the batch specified by `WrappersToAdd`; the store gains exactly that batch after its old contents, in a single save |

## Left out

- `parallelStream()` at lines 53 and 73 is modelled sequentially. `collect(toList())` keeps encounter order, so the result is the same.
- Logging and timing (`LOGGER.info`, `LocalDateTime.now`, `Duration`) are not modelled. They only observe.
- Repository exceptions are not modelled. The code catches none, so an exception simply ends the run.
- Spring Data query execution is not modelled. `findAll`, `findOneBySubmissionId` and `findBySubmissionId` are reads of the `Snapshot` or of the stored list.
- `save` is modelled as an append. Mongo's upsert by document id is not modelled, and neither is the wrapper's own document id. New wrappers carry no id, so `save` inserts them.
- The snapshot's project map holds at most one project per submission. The case of several projects for one submission, where the first one found is used, is not modelled.
- A submission's name and every other document field that the importer does not read are not modelled.
- `src/main/java/uk/ac/ebi/subs/AccessionIdImporterApplication.java` is not part of this model. It is Spring Boot start-up wiring.
- The test fixture's expected diff size of 10 is not stated as a lemma. Its ten submissions with null-accession samples pass the code's filters too (see `NullSampleAccessionsAreKept`).
- Changes to the submission, project and sample repositories during the service's lifetime are not modelled. The `Snapshot` is fixed, while the code reads these repositories afresh in each step (lines 55 and 59, then 87 and 92) and on every later diff. So the model cannot express, for example, a project losing its accession between the two steps, which the re-check at line 97 handles; its idempotence results hold only with the lookups unchanged. Other writers to the accession-id collection are not modelled either.
