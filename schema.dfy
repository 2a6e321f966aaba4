/** Helper datatypes shared by the model. */
module Wrappers {

  datatype Option<+T> = None | Some(value: T)
}

/**
 * The record shapes of the two tables: favicon sets and processing jobs,
 * their insert forms (the record without its id) and the partial record
 * that a job update merges in.
 */
module Schema {
  import opened Wrappers

  /** The status values a job may carry. */
  datatype JobStatus = Pending | Processing | Completed | Failed

  /**
   * A JSON object as the list of its entries in enumeration order
   * (the order `Object.entries` visits them).
   */
  type Entries = seq<(string, string)>

  /** The keys of an object, in enumeration order. */
  function Keys(e: Entries): seq<string> {
    seq(|e|, i requires 0 <= i < |e| => e[i].0)
  }

  /** No key occurs twice, as in every JS object. */
  predicate DistinctKeys(e: Entries) {
    forall i, j :: 0 <= i < j < |e| ==> e[i].0 != e[j].0
  }

  /**
   * `obj[k] = v` on a plain object: an existing key keeps its place and
   * takes the new value, a new key is added last. (A new array-index key
   * such as "16" is placed by numeric order in JS; the keys here are always
   * added in ascending numeric order, where the two agree.)
   */
  function Put(e: Entries, k: string, v: string): (r: Entries)
    ensures Keys(r) == if k in Keys(e) then Keys(e) else Keys(e) + [k]
    ensures forall i :: 0 <= i < |r| && r[i].0 == k ==> r[i].1 == v
    ensures forall i :: 0 <= i < |e| && e[i].0 != k ==> r[i] == e[i]
    ensures DistinctKeys(e) ==> DistinctKeys(r)
  {
    if k in Keys(e) then seq(|e|, i requires 0 <= i < |e| => if e[i].0 == k then (k, v) else e[i])
    else AppendKeyFacts(e, k, v); e + [(k, v)]
  }

  /** Appending an entry under a new key appends the key and keeps the keys distinct. */
  lemma AppendKeyFacts(e: Entries, k: string, v: string)
    requires k !in Keys(e)
    ensures forall i :: 0 <= i < |e| ==> e[i].0 != k
    ensures Keys(e + [(k, v)]) == Keys(e) + [k]
    ensures DistinctKeys(e) ==> DistinctKeys(e + [(k, v)])
  {
    forall i | 0 <= i < |e| ensures e[i].0 != k {
      assert Keys(e)[i] == e[i].0;
    }
  }

  datatype InsertFaviconSet = InsertFaviconSet(
    originalName: string,
    originalFormat: string,
    sizes: Entries,
    createdAt: string)

  datatype FaviconSet = FaviconSet(
    id: nat,
    originalName: string,
    originalFormat: string,
    sizes: Entries,
    createdAt: string)

  datatype InsertProcessingJob = InsertProcessingJob(
    totalImages: int,
    completedImages: int,
    status: JobStatus,
    error: Option<string>,
    createdAt: string)

  /** `error` is None when the record holds no error (absent or null). */
  datatype ProcessingJob = ProcessingJob(
    id: nat,
    totalImages: int,
    completedImages: int,
    status: JobStatus,
    error: Option<string>,
    createdAt: string)

  /**
   * A partial job record: None for a field the update does not name.
   * `error` may name the field with a message (Some(Some(m))) or with null (Some(None)).
   */
  datatype JobUpdate = JobUpdate(
    id: Option<nat>,
    totalImages: Option<int>,
    completedImages: Option<int>,
    status: Option<JobStatus>,
    error: Option<Option<string>>,
    createdAt: Option<string>)

  const NoChange := JobUpdate(None, None, None, None, None, None)

  /** `{ ...faviconSet, id }`: the insert record extended with its id. */
  function SetWithId(s: InsertFaviconSet, id: nat): (r: FaviconSet)
    ensures r.id == id
    ensures r.originalName == s.originalName && r.originalFormat == s.originalFormat
    ensures r.sizes == s.sizes && r.createdAt == s.createdAt
  {
    FaviconSet(id, s.originalName, s.originalFormat, s.sizes, s.createdAt)
  }

  /** `{ ...job, id }`: the insert record extended with its id. */
  function JobWithId(j: InsertProcessingJob, id: nat): (r: ProcessingJob)
    ensures r.id == id
    ensures r.totalImages == j.totalImages && r.completedImages == j.completedImages
    ensures r.status == j.status && r.error == j.error && r.createdAt == j.createdAt
  {
    ProcessingJob(id, j.totalImages, j.completedImages, j.status, j.error, j.createdAt)
  }

  function Pick<T>(update: Option<T>, old_: T): T {
    match update
    case Some(v) => v
    case None => old_
  }

  /**
   * `{ ...job, ...updates }`: every field the update names takes the new
   * value, every other field keeps the old one.
   */
  function Merge(job: ProcessingJob, u: JobUpdate): (r: ProcessingJob)
    ensures u.id.Some? ==> r.id == u.id.value
    ensures u.id.None? ==> r.id == job.id
    ensures u.totalImages.Some? ==> r.totalImages == u.totalImages.value
    ensures u.totalImages.None? ==> r.totalImages == job.totalImages
    ensures u.completedImages.Some? ==> r.completedImages == u.completedImages.value
    ensures u.completedImages.None? ==> r.completedImages == job.completedImages
    ensures u.status.Some? ==> r.status == u.status.value
    ensures u.status.None? ==> r.status == job.status
    ensures u.error.Some? ==> r.error == u.error.value
    ensures u.error.None? ==> r.error == job.error
    ensures u.createdAt.Some? ==> r.createdAt == u.createdAt.value
    ensures u.createdAt.None? ==> r.createdAt == job.createdAt
  {
    ProcessingJob(
      Pick(u.id, job.id),
      Pick(u.totalImages, job.totalImages),
      Pick(u.completedImages, job.completedImages),
      Pick(u.status, job.status),
      Pick(u.error, job.error),
      Pick(u.createdAt, job.createdAt))
  }
}
