/**
 * The download handlers `/api/download/:id` and `/api/download-all`: which
 * files go into the zip and under which entry names. Whether a file is on
 * disk is an oracle `onDisk` on the stored file name; the archive itself
 * is the sequence of entries in the order they are appended.
 */
module Download {
  import opened Schema
  import opened Naming
  import opened Storage
  import opened Pipeline

  /** One appended zip entry: its name in the archive and the stored file it reads. */
  datatype ZipEntry = ZipEntry(name: string, file: string)

  datatype DownloadReply =
    | Archive(fileName: string, entries: seq<ZipEntry>)   // the zip stream
    | NotFound(message: string)                           // 404

  const AllFaviconsZipName := "all_favicons.zip"

  const SetNotFoundMessage := "Favicon set not found"

  /** The stored file a `sizes` URL names: `url.split('/').pop()`. */
  function StoredFileName(url: string): string {
    LastSegment(url)
  }

  /** Whether the entry `(size, url)` of a set's `sizes` becomes a zip entry. */
  predicate Included(entry: (string, string), onDisk: string -> bool) {
    var filename := StoredFileName(entry.1);
    filename != "" && onDisk(filename)
  }

  /** The zip entry for `(size, url)`: `{stem}_{size}x{size}.png`, read from the stored file. */
  function EntryFor(stem: string, entry: (string, string)): ZipEntry {
    ZipEntry(ZipEntryName(stem, entry.0), StoredFileName(entry.1))
  }

  /** The entry each `sizes` entry would give if its file were on disk. */
  function EntryCandidates(stem: string, sizes: Entries): seq<ZipEntry> {
    seq(|sizes|, k requires 0 <= k < |sizes| => EntryFor(stem, sizes[k]))
  }

  /** The candidate's file has a name and is on disk. */
  predicate Present(e: ZipEntry, onDisk: string -> bool) {
    e.file != "" && onDisk(e.file)
  }

  /** The candidates whose file is present, in order. */
  function KeepPresent(candidates: seq<ZipEntry>, onDisk: string -> bool): seq<ZipEntry> {
    if candidates == [] then []
    else
      var n := |candidates| - 1;
      KeepPresent(candidates[..n], onDisk) + if Present(candidates[n], onDisk) then [candidates[n]] else []
  }

  /** How many candidates have their file present. */
  function PresentCount(candidates: seq<ZipEntry>, onDisk: string -> bool): nat {
    if candidates == [] then 0
    else
      var n := |candidates| - 1;
      PresentCount(candidates[..n], onDisk) + if Present(candidates[n], onDisk) then 1 else 0
  }

  /** How many `sizes` entries are included. */
  function IncludedCount(sizes: Entries, onDisk: string -> bool): nat {
    if sizes == [] then 0
    else
      var n := |sizes| - 1;
      IncludedCount(sizes[..n], onDisk) + if Included(sizes[n], onDisk) then 1 else 0
  }

  /** The entries the loop over `Object.entries(sizes)` appends: one per included entry, in order. */
  function EntriesFrom(stem: string, sizes: Entries, onDisk: string -> bool): seq<ZipEntry> {
    KeepPresent(EntryCandidates(stem, sizes), onDisk)
  }

  /** The entries of one favicon set, named after the stem that the download handlers derive. */
  function SetEntries(favs: FaviconSet, onDisk: string -> bool): seq<ZipEntry> {
    EntriesFrom(DownloadStem(favs.originalName), favs.sizes, onDisk)
  }

  /** The parts joined one after another. */
  function Concat(parts: seq<seq<ZipEntry>>): seq<ZipEntry> {
    if parts == [] then []
    else
      var n := |parts| - 1;
      Concat(parts[..n]) + parts[n]
  }

  /** The entries of several sets, one set after another. */
  function AllEntries(sets: seq<FaviconSet>, onDisk: string -> bool): seq<ZipEntry> {
    Concat(seq(|sets|, i requires 0 <= i < |sets| => SetEntries(sets[i], onDisk)))
  }

  /** The stored sets in the order the store enumerates them. */
  function OrderedSets(sets: map<nat, FaviconSet>, order: seq<nat>): seq<FaviconSet>
    requires forall k :: k in order ==> k in sets
  {
    seq(|order|, i requires 0 <= i < |order| => sets[order[i]])
  }

  /** Joining one more part appends it. */
  lemma ConcatStep(parts: seq<seq<ZipEntry>>, i: nat)
    requires i < |parts|
    ensures Concat(parts[..i + 1]) == Concat(parts[..i]) + parts[i]
  {
    assert parts[..i + 1][..i] == parts[..i];
  }

  /** A listing that holds, position by position, the sets the order names is `OrderedSets`. */
  lemma OrderedSetsOf(sets: map<nat, FaviconSet>, order: seq<nat>, r: seq<FaviconSet>)
    requires forall k :: k in order ==> k in sets
    requires |r| == |order| && forall i :: 0 <= i < |r| ==> r[i] == sets[order[i]]
    ensures r == OrderedSets(sets, order)
  {
  }

  // ---------------------------------------------------------------------
  // What the entry functions say

  /**
   * Exactly the present candidates are kept, once each and in their order:
   * there are as many entries as present candidates, and present candidate
   * `k` sits at the position that counts the present candidates before it.
   */
  lemma {:induction false} KeepPresentSpec(candidates: seq<ZipEntry>, onDisk: string -> bool)
    ensures |KeepPresent(candidates, onDisk)| == PresentCount(candidates, onDisk) <= |candidates|
    ensures forall e :: e in KeepPresent(candidates, onDisk) <==>
      exists k :: 0 <= k < |candidates| && Present(candidates[k], onDisk) && e == candidates[k]
    ensures forall k :: 0 <= k < |candidates| && Present(candidates[k], onDisk) ==>
      PresentCount(candidates[..k], onDisk) < |KeepPresent(candidates, onDisk)| &&
      KeepPresent(candidates, onDisk)[PresentCount(candidates[..k], onDisk)] == candidates[k]
  {
    if candidates != [] {
      var n := |candidates| - 1;
      var prefix := candidates[..n];
      KeepPresentSpec(prefix, onDisk);
      assert candidates[..n][..n] == prefix;
      forall e | e in KeepPresent(candidates, onDisk)
        ensures exists k :: 0 <= k < |candidates| && Present(candidates[k], onDisk) && e == candidates[k]
      {
        if e in KeepPresent(prefix, onDisk) {
          var k :| 0 <= k < n && Present(prefix[k], onDisk) && e == prefix[k];
          assert prefix[k] == candidates[k];
        }
      }
      forall k | 0 <= k < |candidates| && Present(candidates[k], onDisk)
        ensures candidates[k] in KeepPresent(candidates, onDisk)
        ensures PresentCount(candidates[..k], onDisk) < |KeepPresent(candidates, onDisk)|
        ensures KeepPresent(candidates, onDisk)[PresentCount(candidates[..k], onDisk)] == candidates[k]
      {
        if k < n {
          assert prefix[k] == candidates[k];
          assert prefix[..k] == candidates[..k];
        }
      }
    }
  }

  /**
   * The positions grow with the candidates: a present candidate comes
   * before every later one in the kept entries.
   */
  lemma {:induction false} PresentCountGrows(candidates: seq<ZipEntry>, onDisk: string -> bool, i: nat, j: nat)
    requires i < j <= |candidates| && Present(candidates[i], onDisk)
    ensures PresentCount(candidates[..i], onDisk) < PresentCount(candidates[..j], onDisk)
  {
    if j == i + 1 {
      assert candidates[..j][..i] == candidates[..i];
    } else {
      PresentCountGrows(candidates, onDisk, i, j - 1);
      assert candidates[..j][..j - 1] == candidates[..j - 1];
    }
  }

  /** One more candidate: it is kept exactly when its file is present. */
  lemma KeepPresentStep(candidates: seq<ZipEntry>, onDisk: string -> bool, j: nat)
    requires j < |candidates|
    ensures KeepPresent(candidates[..j + 1], onDisk)
      == KeepPresent(candidates[..j], onDisk) + if Present(candidates[j], onDisk) then [candidates[j]] else []
  {
    assert candidates[..j + 1][..j] == candidates[..j];
  }

  /** When every candidate is present, all are kept. */
  lemma {:induction false} KeepPresentAll(candidates: seq<ZipEntry>, onDisk: string -> bool)
    requires forall k :: 0 <= k < |candidates| ==> Present(candidates[k], onDisk)
    ensures KeepPresent(candidates, onDisk) == candidates
  {
    if candidates != [] {
      var n := |candidates| - 1;
      KeepPresentAll(candidates[..n], onDisk);
      assert candidates[..n] + [candidates[n]] == candidates;
    }
  }

  /** The candidates of a record count as many present files as the record has included entries. */
  lemma {:induction false} CandidatesCount(stem: string, sizes: Entries, onDisk: string -> bool)
    ensures PresentCount(EntryCandidates(stem, sizes), onDisk) == IncludedCount(sizes, onDisk)
  {
    if sizes != [] {
      var n := |sizes| - 1;
      CandidatesCount(stem, sizes[..n], onDisk);
      assert EntryCandidates(stem, sizes)[..n] == EntryCandidates(stem, sizes[..n]);
      assert EntryCandidates(stem, sizes)[n] == EntryFor(stem, sizes[n]);
    }
  }

  /**
   * Exactly the included `sizes` entries give a zip entry, once each and in
   * `sizes` order, each named after its size key and reading the file its
   * URL names; missing files, and URLs ending in `/`, are skipped.
   */
  lemma EntriesFromSpec(stem: string, sizes: Entries, onDisk: string -> bool)
    ensures |EntriesFrom(stem, sizes, onDisk)| == IncludedCount(sizes, onDisk) <= |sizes|
    ensures forall e :: e in EntriesFrom(stem, sizes, onDisk) <==>
      exists k :: 0 <= k < |sizes| && Included(sizes[k], onDisk) && e == EntryFor(stem, sizes[k])
    ensures forall k :: 0 <= k < |sizes| && Included(sizes[k], onDisk) ==>
      IncludedCount(sizes[..k], onDisk) < |EntriesFrom(stem, sizes, onDisk)| &&
      EntriesFrom(stem, sizes, onDisk)[IncludedCount(sizes[..k], onDisk)] == EntryFor(stem, sizes[k])
  {
    var c := EntryCandidates(stem, sizes);
    KeepPresentSpec(c, onDisk);
    CandidatesCount(stem, sizes, onDisk);
    forall k | 0 <= k < |sizes| ensures c[k] == EntryFor(stem, sizes[k]) && (Present(c[k], onDisk) <==> Included(sizes[k], onDisk)) {
    }
    forall k | 0 <= k < |sizes| && Included(sizes[k], onDisk)
      ensures IncludedCount(sizes[..k], onDisk) < |EntriesFrom(stem, sizes, onDisk)|
      ensures EntriesFrom(stem, sizes, onDisk)[IncludedCount(sizes[..k], onDisk)] == EntryFor(stem, sizes[k])
    {
      EntryPosition(stem, sizes, onDisk, k);
    }
  }

  /** The included `sizes` entry `k` gives the entry at the count of included entries before it. */
  lemma EntryPosition(stem: string, sizes: Entries, onDisk: string -> bool, k: nat)
    requires k < |sizes| && Included(sizes[k], onDisk)
    ensures IncludedCount(sizes[..k], onDisk) < |EntriesFrom(stem, sizes, onDisk)|
    ensures EntriesFrom(stem, sizes, onDisk)[IncludedCount(sizes[..k], onDisk)] == EntryFor(stem, sizes[k])
  {
    var c := EntryCandidates(stem, sizes);
    assert c[k] == EntryFor(stem, sizes[k]);
    assert Present(c[k], onDisk);
    KeepPresentSpec(c, onDisk);
    assert c[..k] == EntryCandidates(stem, sizes[..k]);
    CandidatesCount(stem, sizes[..k], onDisk);
  }

  /** An included `sizes` entry gives its zip entry before those of every later entry. */
  lemma {:induction false} IncludedCountGrows(sizes: Entries, onDisk: string -> bool, i: nat, j: nat)
    requires i < j <= |sizes| && Included(sizes[i], onDisk)
    ensures IncludedCount(sizes[..i], onDisk) < IncludedCount(sizes[..j], onDisk)
  {
    IncludedCountStep(sizes, onDisk, j - 1);
    if j == i + 1 {
    } else {
      IncludedCountGrows(sizes, onDisk, i, j - 1);
    }
  }

  /** One more `sizes` entry never lowers the count, and adds one when it is included. */
  lemma IncludedCountStep(sizes: Entries, onDisk: string -> bool, n: nat)
    requires n < |sizes|
    ensures IncludedCount(sizes[..n], onDisk) <= IncludedCount(sizes[..n + 1], onDisk)
    ensures Included(sizes[n], onDisk) ==> IncludedCount(sizes[..n + 1], onDisk) == IncludedCount(sizes[..n], onDisk) + 1
  {
    var p := sizes[..n + 1];
    assert p[..n] == sizes[..n];
    assert p[n] == sizes[n];
  }

  /** When every file is on disk, there is one entry per `sizes` entry, in the same order. */
  lemma EntriesFromAllPresent(stem: string, sizes: Entries, onDisk: string -> bool)
    requires forall k :: 0 <= k < |sizes| ==> Included(sizes[k], onDisk)
    ensures EntriesFrom(stem, sizes, onDisk) == EntryCandidates(stem, sizes)
  {
    var c := EntryCandidates(stem, sizes);
    forall k | 0 <= k < |c| ensures Present(c[k], onDisk) {
      assert c[k] == EntryFor(stem, sizes[k]);
    }
    KeepPresentAll(c, onDisk);
  }

  /** An entry is in the joined parts exactly when it is in one of them. */
  lemma {:induction false} ConcatSpec(parts: seq<seq<ZipEntry>>)
    ensures forall e :: e in Concat(parts) <==> exists i :: 0 <= i < |parts| && e in parts[i]
  {
    if parts != [] {
      var n := |parts| - 1;
      var prefix := parts[..n];
      ConcatSpec(prefix);
      forall e | e in Concat(parts) ensures exists i :: 0 <= i < |parts| && e in parts[i] {
        if e in Concat(prefix) {
          var i :| 0 <= i < n && e in prefix[i];
          assert prefix[i] == parts[i];
        }
      }
      forall e, i | 0 <= i < |parts| && e in parts[i] ensures e in Concat(parts) {
        if i < n {
          assert prefix[i] == parts[i];
        }
      }
    }
  }

  /** An entry is in the download-all archive exactly when it is an entry of one of the sets. */
  lemma AllEntriesSpec(sets: seq<FaviconSet>, onDisk: string -> bool)
    ensures forall e :: e in AllEntries(sets, onDisk) <==>
      exists i :: 0 <= i < |sets| && e in SetEntries(sets[i], onDisk)
  {
    var parts := seq(|sets|, i requires 0 <= i < |sets| => SetEntries(sets[i], onDisk));
    ConcatSpec(parts);
    forall e ensures e in AllEntries(sets, onDisk) <==> exists i :: 0 <= i < |sets| && e in SetEntries(sets[i], onDisk) {
      if e in AllEntries(sets, onDisk) {
        var i :| 0 <= i < |parts| && e in parts[i];
        assert e in SetEntries(sets[i], onDisk);
      }
      if exists i :: 0 <= i < |sets| && e in SetEntries(sets[i], onDisk) {
        var i :| 0 <= i < |sets| && e in SetEntries(sets[i], onDisk);
        assert e in parts[i];
      }
    }
  }

  /**
   * The download of a set the upload handler made, whose three files are
   * on disk: three entries, `{stem}_16x16.png`, `{stem}_32x32.png` and
   * `{stem}_48x48.png` with the download stem, each reading the file the
   * upload wrote for that size (named with the upload stem).
   */
  lemma UploadedSetEntries(file: UploadedFile, env: FileEnv, id: nat, onDisk: string -> bool)
    requires var stem := UploadStem(file.originalName);
      forall size :: size in Sizes ==> onDisk(OutputFilename(stem, size, env.timestamp))
    ensures var up := UploadStem(file.originalName);
      var down := DownloadStem(file.originalName);
      SetEntries(SetWithId(SetFor(file, env), id), onDisk) == [
        ZipEntry(ZipEntryName(down, "16"), OutputFilename(up, 16, env.timestamp)),
        ZipEntry(ZipEntryName(down, "32"), OutputFilename(up, 32, env.timestamp)),
        ZipEntry(ZipEntryName(down, "48"), OutputFilename(up, 48, env.timestamp))]
  {
    SanitizeSpec(UploadBase(file.originalName));
    RecordEntries(UploadStem(file.originalName), DownloadStem(file.originalName), env.timestamp, onDisk);
  }

  /** The entries of a `sizes` record written with stem `up`, named with stem `down`. */
  lemma RecordEntries(up: string, down: string, timestamp: nat, onDisk: string -> bool)
    requires '/' !in up
    requires forall size :: size in Sizes ==> onDisk(OutputFilename(up, size, timestamp))
    ensures EntriesFrom(down, SizesRecord(up, timestamp, Sizes), onDisk) == [
        ZipEntry(ZipEntryName(down, "16"), OutputFilename(up, 16, timestamp)),
        ZipEntry(ZipEntryName(down, "32"), OutputFilename(up, 32, timestamp)),
        ZipEntry(ZipEntryName(down, "48"), OutputFilename(up, 48, timestamp))]
  {
    var sizes := SizesRecord(up, timestamp, Sizes);
    var expected := seq(3, k requires 0 <= k < 3 => ZipEntry(ZipEntryName(down, NatToString(Sizes[k])), OutputFilename(up, Sizes[k], timestamp)));
    forall k | 0 <= k < 3
      ensures Included(sizes[k], onDisk)
      ensures EntryCandidates(down, sizes)[k] == expected[k]
    {
      RecordEntryAt(up, timestamp, k);
    }
    EntriesFromAllPresent(down, sizes, onDisk);
    SizeKeys();
  }

  /** The `k`-th entry of such a record: its key is the size and its URL names the written file. */
  lemma RecordEntryAt(up: string, timestamp: nat, k: nat)
    requires '/' !in up
    requires k < 3
    ensures SizesRecord(up, timestamp, Sizes)[k].0 == NatToString(Sizes[k])
    ensures StoredFileName(SizesRecord(up, timestamp, Sizes)[k].1) == OutputFilename(up, Sizes[k], timestamp)
    ensures OutputFilename(up, Sizes[k], timestamp) != ""
  {
    UrlLastSegment(up, Sizes[k], timestamp);
  }

  // ---------------------------------------------------------------------
  // The handlers

  /** The loop over a set's `sizes`: append an entry for each stored file that is on disk. */
  method AppendSetEntries(entries0: seq<ZipEntry>, stem: string, sizes: Entries, onDisk: string -> bool)
      returns (entries: seq<ZipEntry>)
    ensures entries == entries0 + EntriesFrom(stem, sizes, onDisk)
  {
    ghost var candidates := EntryCandidates(stem, sizes);
    entries := entries0;
    var j := 0;
    while j < |sizes|
      invariant 0 <= j <= |sizes|
      invariant entries == entries0 + KeepPresent(candidates[..j], onDisk)
    {
      ghost var kept := KeepPresent(candidates[..j], onDisk);
      KeepPresentStep(candidates, onDisk, j);
      var (size, url) := sizes[j];
      var filename := StoredFileName(url);
      var entry := ZipEntry(ZipEntryName(stem, size), filename);
      assert entry == candidates[j];
      if filename != "" && onDisk(filename) {
        entries := entries + [entry];
        assert entries == entries0 + (kept + [entry]);
      } else {
        assert kept + [] == kept;
      }
      j := j + 1;
    }
    assert candidates[..j] == candidates;
  }

  /** `/api/download/:id` for a well-formed id. */
  method DownloadSet(store: MemStorage, id: nat, onDisk: string -> bool) returns (r: DownloadReply)
    requires store.Valid()
    ensures id !in store.faviconSets ==> r == NotFound(SetNotFoundMessage)
    ensures id in store.faviconSets ==>
      var favs := store.faviconSets[id];
      r == Archive(ZipFileName(DownloadStem(favs.originalName)), SetEntries(favs, onDisk))
  {
    var found := store.GetFaviconSet(id);
    if found.None? {
      return NotFound(SetNotFoundMessage);
    }
    var favs := found.value;
    var sanitizedName := DownloadStem(favs.originalName);
    var entries := AppendSetEntries([], sanitizedName, favs.sizes, onDisk);
    r := Archive(ZipFileName(sanitizedName), entries);
  }

  /** `/api/download-all`: the entries of every stored set, in the store's order. */
  method DownloadAll(store: MemStorage, onDisk: string -> bool) returns (r: DownloadReply)
    requires store.Valid()
    ensures r == Archive(AllFaviconsZipName, AllEntries(OrderedSets(store.faviconSets, store.faviconSetOrder), onDisk))
  {
    var sets := store.GetAllFaviconSets();
    OrderedSetsOf(store.faviconSets, store.faviconSetOrder, sets);
    ghost var parts := seq(|sets|, i requires 0 <= i < |sets| => SetEntries(sets[i], onDisk));
    var entries := [];
    var i := 0;
    while i < |sets|
      invariant 0 <= i <= |sets|
      invariant entries == Concat(parts[..i])
    {
      ConcatStep(parts, i);
      var favs := sets[i];
      var sanitizedName := DownloadStem(favs.originalName);
      entries := AppendSetEntries(entries, sanitizedName, favs.sizes, onDisk);
      i := i + 1;
    }
    assert parts[..i] == parts;
    r := Archive(AllFaviconsZipName, entries);
  }
}
