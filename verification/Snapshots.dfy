/**
 Task snapshots and conflict-aware rewind (minicc/snapshots.py).

 The workspace is a flat map from path to text; a path that is not in the map has no file.
 SHA-256 is taken to be collision free, so a digest is modelled by the text it was computed from.
 */
module Snapshots {
  import opened Common

  type Path = string
  type Content = string
  type Disk = map<Path, Content>

  datatype Digest = Digest(preimage: Content)

  const MAX_SNAPSHOT_FILES: nat := 400
  const MAX_SNAPSHOT_FILE_BYTES: nat := 16 * 1024 * 1024
  const MAX_SNAPSHOT_TOTAL_BYTES: nat := 64 * 1024 * 1024

  /** One journal entry: a write that was announced, or the digest of the last confirmed one. */
  datatype Record = Pending | Confirmed(digest: Option<Digest>)

  /** `manifest.json`; `journal` lists the keys of `touched` in insertion order. */
  datatype Manifest = Manifest(
    files: seq<Path>, digests: map<Path, Digest>, sizes: map<Path, nat>,
    missing: seq<Path>, skipped: seq<Path>,
    touched: map<Path, Record>, journal: seq<Path>)

  /** The workspace, the stored preimages and the manifest that lists them. */
  datatype World = World(disk: Disk, images: Disk, m: Manifest)

  datatype Refusal = WriteNotConfirmed | ChangedSinceWrite | NoPreimage | ChangedSinceCapture
                   | CreatedSinceCapture | CopyFailed | SaveFailed

  function Lookup(d: Disk, p: Path): Option<Content> {
    if p in d then Some(d[p]) else None
  }

  function Put(d: Disk, p: Path, f: Option<Content>): Disk {
    match f
    case Some(c) => d[p := c]
    case None => d - {p}
  }

  function DigestOf(f: Option<Content>): Option<Digest> {
    match f
    case Some(c) => Some(Digest(c))
    case None => None
  }

  function TotalSize(files: seq<Path>, sizes: map<Path, nat>): nat {
    if files == [] then 0
    else TotalSize(files[..|files| - 1], sizes) + (if files[|files| - 1] in sizes then sizes[files[|files| - 1]] else 0)
  }

  /** The guard of `_copy_preimage`: room for one more file of this size. */
  predicate Fits(count: nat, used: nat, size: nat) {
    count < MAX_SNAPSHOT_FILES && size <= MAX_SNAPSHOT_FILE_BYTES && used + size <= MAX_SNAPSHOT_TOTAL_BYTES
  }

  // ---------------------------------------------------------------- capture

  const EMPTY_MANIFEST := Manifest([], map[], map[], [], [], map[], [])

  /** Preserve `c` as the preimage of `p`. */
  function AddImage(w: World, p: Path, c: Content): World {
    w.(images := w.images[p := c],
       m := w.m.(files := w.m.files + [p], digests := w.m.digests[p := Digest(c)], sizes := w.m.sizes[p := |c|]))
  }

  /** One round of the capture loop; `unreadable` stands for a deny rule, a refused path or a copy error. */
  function CaptureOne(w: World, p: Path, unreadable: set<Path>): World {
    if p in unreadable then w.(m := w.m.(skipped := w.m.skipped + [p]))
    else if p !in w.disk then w.(m := w.m.(missing := w.m.missing + [p]))
    else if !Fits(|w.m.files|, TotalSize(w.m.files, w.m.sizes), |w.disk[p]|) then
      w.(m := w.m.(skipped := w.m.skipped + [p]))
    else AddImage(w, p, w.disk[p])
  }

  function Captured(disk: Disk, dirty: seq<Path>, unreadable: set<Path>): World {
    if dirty == [] then World(disk, map[], EMPTY_MANIFEST)
    else CaptureOne(Captured(disk, dirty[..|dirty| - 1], unreadable), dirty[|dirty| - 1], unreadable)
  }

  // ---------------------------------------------------------------- journal

  /** Why `before_write` refuses, if it does; its tests are in the order the code makes them. */
  function Objection(w: World, p: Path, copyOk: bool): Option<Refusal> {
    if p in w.m.touched && w.m.touched[p].Pending? then Some(WriteNotConfirmed)
    else if p in w.m.touched && w.m.touched[p].digest != DigestOf(Lookup(w.disk, p)) then Some(ChangedSinceWrite)
    else if p in w.m.skipped then Some(NoPreimage)
    else if p !in w.m.touched && p in w.m.digests && DigestOf(Lookup(w.disk, p)) != Some(w.m.digests[p]) then
      Some(ChangedSinceCapture)
    else if p !in w.m.files && p !in w.m.missing then
      if p in w.disk && !(copyOk && Fits(|w.m.files|, TotalSize(w.m.files, w.m.sizes), |w.disk[p]|)) then Some(CopyFailed)
      else None
    else if p in w.m.missing && p in w.disk && p !in w.m.touched then Some(CreatedSinceCapture)
    else None
  }

  function SetRecord(w: World, p: Path, r: Record): World {
    w.(m := w.m.(touched := w.m.touched[p := r],
                 journal := if p in w.m.touched then w.m.journal else w.m.journal + [p]))
  }

  /** What an accepted `before_write` leaves behind. */
  function Announced(w: World, p: Path): World {
    var preserved :=
      if p in w.m.files || p in w.m.missing then w
      else if p in w.disk then AddImage(w, p, w.disk[p])
      else w.(m := w.m.(missing := w.m.missing + [p]));
    SetRecord(preserved, p, Pending)
  }

  /** What is left when the manifest of an accepted `before_write` cannot be saved: at most an image nothing refers to. */
  function AnnouncedUnsaved(w: World, p: Path): World {
    w.(images := Announced(w, p).images)
  }

  function ConfirmedWrite(w: World, p: Path): World {
    SetRecord(w, p, Confirmed(DigestOf(Lookup(w.disk, p))))
  }

  // ---------------------------------------------------------------- restore

  datatype Fate = Conflict | Rewritten | Removed | Skipped

  /** What `restore` decides for one journaled path; `failing` are the paths whose replacement raises. */
  function FateOf(w: World, failing: set<Path>, p: Path): Fate {
    if p !in w.m.touched || w.m.touched[p] != Confirmed(DigestOf(Lookup(w.disk, p))) then Conflict
    else if p in w.m.files && p in w.images then
      if p in w.m.digests && Digest(w.images[p]) != w.m.digests[p] then Skipped
      else if p in failing then Skipped else Rewritten
    else if p in w.m.missing then
      if p in failing then Skipped else Removed
    else Skipped
  }

  function FileAfter(w: World, failing: set<Path>, p: Path): Option<Content> {
    match FateOf(w, failing, p)
    case Rewritten => Lookup(w.images, p)
    case Removed => None
    case _ => Lookup(w.disk, p)
  }

  function RecordAfter(w: World, failing: set<Path>, p: Path): Record
    requires p in w.m.touched
  {
    match FateOf(w, failing, p)
    case Rewritten => Confirmed(DigestOf(Lookup(w.images, p)))
    case Removed => Confirmed(None)
    case _ => w.m.touched[p]
  }

  /** `restore`, stated path by path rather than as the loop that computes it. */
  function Restored(w: World, failing: set<Path>): World {
    w.(disk := map p | p in w.disk.Keys + w.images.Keys && FileAfter(w, failing, p).Some? :: FileAfter(w, failing, p).value,
       m := w.m.(touched := map p | p in w.m.touched :: RecordAfter(w, failing, p)))
  }

  /** A restore whose manifest cannot be saved has replaced the files, but its records are lost. */
  function RestoredUnsaved(w: World, failing: set<Path>): World {
    w.(disk := Restored(w, failing).disk)
  }

  /** The paths of `ps` that meet one fate, in order. */
  function Select(ps: seq<Path>, w: World, failing: set<Path>, f: Fate): seq<Path> {
    if ps == [] then []
    else Select(ps[..|ps| - 1], w, failing, f) + (if FateOf(w, failing, ps[|ps| - 1]) == f then [ps[|ps| - 1]] else [])
  }

  /** The report of two stretches of the journal is the two reports, list by list: the lists keep the journal's order. */
  lemma {:induction false} SelectInParts(a: seq<Path>, b: seq<Path>, w: World, failing: set<Path>, f: Fate)
    ensures Select(a + b, w, failing, f) == Select(a, w, failing, f) + Select(b, w, failing, f)
    decreases |b|
  {
    if b == [] {
      assert a + b == a;
    } else {
      SelectInParts(a, b[..|b| - 1], w, failing, f);
      assert (a + b)[..|a + b| - 1] == a + b[..|b| - 1];
    }
  }

  lemma {:induction false} SelectExactly(ps: seq<Path>, w: World, failing: set<Path>, f: Fate, p: Path)
    ensures p in Select(ps, w, failing, f) <==> p in ps && FateOf(w, failing, p) == f
  {
    if ps != [] {
      SelectExactly(ps[..|ps| - 1], w, failing, f, p);
      assert ps == ps[..|ps| - 1] + [ps[|ps| - 1]];
    }
  }

  /** The file is as the record says, and there is an image to bring back that is not known to be damaged. */
  predicate Unchanged(w: World, p: Path) {
    p in w.m.touched && w.m.touched[p] == Confirmed(DigestOf(Lookup(w.disk, p)))
  }

  predicate ImageStored(w: World, p: Path) {
    p in w.m.files && p in w.images
  }

  /**
   Which journaled path is in which list of the report, and what that means for its file: a conflict is a file that is
   not as recorded, a restored file has its intact image back, a removed one had none and is gone, and all others are
   skipped. Only restored and removed files change.
   */
  lemma ReportExactly(w: World, failing: set<Path>, ps: seq<Path>, p: Path)
    ensures var r := ReportOf(ps, w, failing); var after := Lookup(Restored(w, failing).disk, p);
      var intact := p in w.m.digests && p in w.images ==> Digest(w.images[p]) == w.m.digests[p];
      && (p in r.conflicts <==> p in ps && !Unchanged(w, p))
      && (p in r.restored <==> p in ps && Unchanged(w, p) && ImageStored(w, p) && intact && p !in failing)
      && (p in r.removed <==> p in ps && Unchanged(w, p) && !ImageStored(w, p) && p in w.m.missing && p !in failing)
      && (p in r.skipped <==> p in ps && p !in r.conflicts && p !in r.restored && p !in r.removed)
      && (p in r.restored ==> after == Lookup(w.images, p)) && (p in r.removed ==> after == None)
      && (p in r.conflicts || p in r.skipped ==> after == Lookup(w.disk, p))
  {
    SelectExactly(ps, w, failing, Rewritten, p);
    SelectExactly(ps, w, failing, Removed, p);
    SelectExactly(ps, w, failing, Fate.Skipped, p);
    SelectExactly(ps, w, failing, Conflict, p);
    RestoredAt(w, failing, p);
  }

  datatype Report = Report(restored: seq<Path>, removed: seq<Path>, skipped: seq<Path>, conflicts: seq<Path>)

  function ReportOf(ps: seq<Path>, w: World, failing: set<Path>): Report {
    Report(Select(ps, w, failing, Rewritten), Select(ps, w, failing, Removed),
           Select(ps, w, failing, Fate.Skipped), Select(ps, w, failing, Conflict))
  }

  lemma RestoredAt(w: World, failing: set<Path>, p: Path)
    ensures Lookup(Restored(w, failing).disk, p) == FileAfter(w, failing, p)
  {
  }

  lemma SameDisk(x: Disk, y: Disk)
    requires forall p :: Lookup(x, p) == Lookup(y, p)
    ensures x == y
  {
    forall p
      ensures p in x <==> p in y
      ensures p in x ==> x[p] == y[p]
    {
      assert Lookup(x, p) == Lookup(y, p);
    }
  }

  /** One path seen by two restores in a row. */
  lemma RestoreTwiceAt(w: World, first: set<Path>, second: set<Path>, p: Path)
    ensures FateOf(w, first, p) in {Rewritten, Removed} ==>
      FileAfter(Restored(w, first), second, p) == FileAfter(w, first, p) &&
      RecordAfter(Restored(w, first), second, p) == RecordAfter(w, first, p)
    ensures FateOf(w, first, p) !in {Rewritten, Removed} ==>
      FileAfter(Restored(w, first), second, p) == FileAfter(w, second, p) &&
      FateOf(Restored(w, first), second, p) == FateOf(w, second, p)
  {
    RestoredAt(w, first, p);
  }

  /** A retry after partial failure ends where an undisturbed restore would have; a later restore adds nothing. */
  lemma RestoreRetryCompletes(w: World, failing: set<Path>)
    ensures Restored(Restored(w, failing), {}) == Restored(w, {})
    ensures Restored(Restored(w, {}), failing) == Restored(w, {})
  {
    var a, b := Restored(w, failing), Restored(w, {});
    forall p
      ensures Lookup(Restored(a, {}).disk, p) == Lookup(b.disk, p)
      ensures Lookup(Restored(b, failing).disk, p) == Lookup(b.disk, p)
      ensures p in w.m.touched ==> RecordAfter(a, {}, p) == b.m.touched[p] && RecordAfter(b, failing, p) == b.m.touched[p]
    {
      RestoreTwiceAt(w, failing, {}, p);
      RestoreTwiceAt(w, {}, failing, p);
      RestoredAt(a, {}, p);
      RestoredAt(b, failing, p);
      RestoredAt(w, {}, p);
    }
    SameDisk(Restored(a, {}).disk, b.disk);
    SameDisk(Restored(b, failing).disk, b.disk);
    assert Restored(a, {}).m.touched == b.m.touched;
    assert Restored(b, failing).m.touched == b.m.touched;
  }

  /** A restore has nothing to do for the path: what it would bring back or remove is that way already. */
  predicate AlreadyBack(w: World, failing: set<Path>, p: Path) {
    match FateOf(w, failing, p)
    case Rewritten => Lookup(w.disk, p) == Lookup(w.images, p)
    case Removed => p !in w.disk
    case _ => true
  }

  /** One path seen by a restore whose records were lost and by the retry. */
  lemma RetryAt(w: World, failing: set<Path>, p: Path, u: World)
    requires u == RestoredUnsaved(w, failing)
    ensures FileAfter(u, {}, p) == FileAfter(w, {}, p)
    ensures p in w.m.touched ==> (RecordAfter(u, {}, p) == RecordAfter(w, {}, p) <==> Lookup(u.disk, p) == Lookup(w.disk, p))
    ensures Lookup(u.disk, p) != Lookup(w.disk, p) ==> p in w.m.touched && FateOf(u, {}, p) == Conflict
    ensures Lookup(u.disk, p) == Lookup(w.disk, p) <==> AlreadyBack(w, failing, p)
  {
    RestoredAt(w, failing, p);
  }

  lemma ConflictCloses(u: World, p: Path, copyOk: bool)
    requires p in u.m.touched && u.m.touched[p].Confirmed? && FateOf(u, {}, p) == Conflict
    ensures Objection(Restored(u, {}), p, copyOk) == Some(ChangedSinceWrite)
  {
    RestoredAt(u, {}, p);
  }

  /**
   A retry after a restore that could not save its manifest completes the files, but it sets the records right
   exactly when the first restore had nothing to change: no journaled path that it would rewrite or remove held
   anything but its first preimage. Every path it did change is a conflict from then on, and no write of it is
   accepted any more.
   */
  lemma RetryAfterFailedSave(w: World, failing: set<Path>, copyOk: bool)
    ensures var u := RestoredUnsaved(w, failing);
      && Restored(u, {}).disk == Restored(w, {}).disk
      && (Restored(u, {}).m == Restored(w, {}).m <==> forall p :: AlreadyBack(w, failing, p))
      && forall p :: !AlreadyBack(w, failing, p) ==> Objection(Restored(u, {}), p, copyOk) == Some(ChangedSinceWrite)
  {
    var u := RestoredUnsaved(w, failing);
    forall p
      ensures Lookup(Restored(u, {}).disk, p) == Lookup(Restored(w, {}).disk, p)
      ensures p in w.m.touched ==>
        (Restored(u, {}).m.touched[p] == Restored(w, {}).m.touched[p] <==> AlreadyBack(w, failing, p))
      ensures !AlreadyBack(w, failing, p) ==>
        p in w.m.touched && Objection(Restored(u, {}), p, copyOk) == Some(ChangedSinceWrite)
    {
      RetryAt(w, failing, p, u);
      RestoredAt(u, {}, p);
      RestoredAt(w, {}, p);
      if !AlreadyBack(w, failing, p) {
        ConflictCloses(u, p, copyOk);
      }
    }
    SameDisk(Restored(u, {}).disk, Restored(w, {}).disk);
    if forall p :: AlreadyBack(w, failing, p) {
      assert Restored(u, {}).m.touched == Restored(w, {}).m.touched;
    }
  }

  // ---------------------------------------------------------------- invariant

  /** No path is listed twice, in one list or in two. */
  ghost predicate ListsInv(files: seq<Path>, missing: seq<Path>, skipped: seq<Path>) {
    && Distinct(files) && Distinct(missing) && Distinct(skipped)
    && forall p :: !(p in files && p in missing) && !(p in files && p in skipped) && !(p in missing && p in skipped)
  }

  /** Exactly the preserved files have a digest and a size, and they keep within the caps. */
  ghost predicate SizesInv(files: seq<Path>, digests: map<Path, Digest>, sizes: map<Path, nat>) {
    && (forall p :: (p in digests <==> p in files) && (p in sizes <==> p in files))
    && (forall p :: p in files ==> sizes[p] == |digests[p].preimage| && sizes[p] <= MAX_SNAPSHOT_FILE_BYTES)
    && |files| <= MAX_SNAPSHOT_FILES
    && TotalSize(files, sizes) <= MAX_SNAPSHOT_TOTAL_BYTES
  }

  /** Every journaled path has a preimage or is known to have had none. */
  ghost predicate JournalInv(touched: map<Path, Record>, journal: seq<Path>, files: seq<Path>, missing: seq<Path>) {
    && Distinct(journal)
    && (forall p :: p in touched <==> p in journal)
    && (forall p :: p in touched ==> p in files || p in missing)
  }

  ghost predicate ManifestInv(m: Manifest) {
    && ListsInv(m.files, m.missing, m.skipped)
    && SizesInv(m.files, m.digests, m.sizes)
    && JournalInv(m.touched, m.journal, m.files, m.missing)
  }

  lemma TotalSizeFrame(files: seq<Path>, sizes: map<Path, nat>, p: Path, n: nat)
    requires p !in files
    ensures TotalSize(files, sizes[p := n]) == TotalSize(files, sizes)
  {
    if files != [] {
      TotalSizeFrame(files[..|files| - 1], sizes, p, n);
    }
  }

  lemma AddImageSizes(files: seq<Path>, digests: map<Path, Digest>, sizes: map<Path, nat>, p: Path, c: Content)
    requires SizesInv(files, digests, sizes) && p !in files
    requires Fits(|files|, TotalSize(files, sizes), |c|)
    ensures SizesInv(files + [p], digests[p := Digest(c)], sizes[p := |c|])
  {
    assert (files + [p])[..|files|] == files;
    TotalSizeFrame(files, sizes, p, |c|);
  }

  lemma AddImageInv(w: World, p: Path, c: Content)
    requires ManifestInv(w.m)
    requires p !in w.m.files && p !in w.m.missing && p !in w.m.skipped
    requires Fits(|w.m.files|, TotalSize(w.m.files, w.m.sizes), |c|)
    ensures ManifestInv(AddImage(w, p, c).m)
  {
    AddImageSizes(w.m.files, w.m.digests, w.m.sizes, p, c);
  }

  /** Every dirty path is listed once, the workspace is untouched and each image is the file it was taken from. */
  ghost predicate CaptureFaithful(w: World, disk: Disk, dirty: seq<Path>, unreadable: set<Path>) {
    && w.disk == disk && w.m.touched == map[] && w.m.journal == []
    && (forall p :: p in dirty <==> p in w.m.files || p in w.m.missing || p in w.m.skipped)
    && (forall p :: p in w.images <==> p in w.m.files)
    && (forall p :: p in w.m.files ==>
         p in disk && p !in unreadable && w.images[p] == disk[p] && p in w.m.digests && w.m.digests[p] == Digest(disk[p]))
    && (forall p :: p in w.m.missing <==> p in dirty && p !in disk && p !in unreadable)
  }

  lemma CaptureOneFaithful(w: World, disk: Disk, before: seq<Path>, p: Path, unreadable: set<Path>)
    requires CaptureFaithful(w, disk, before, unreadable) && p !in before
    ensures CaptureFaithful(CaptureOne(w, p, unreadable), disk, before + [p], unreadable)
  {
  }

  lemma CaptureOneInv(w: World, p: Path, unreadable: set<Path>)
    requires ManifestInv(w.m) && p !in w.m.files && p !in w.m.missing && p !in w.m.skipped
    ensures ManifestInv(CaptureOne(w, p, unreadable).m)
  {
    if p !in unreadable && p in w.disk && Fits(|w.m.files|, TotalSize(w.m.files, w.m.sizes), |w.disk[p]|) {
      AddImageInv(w, p, w.disk[p]);
    }
  }

  lemma {:induction false} CaptureClassifies(disk: Disk, dirty: seq<Path>, unreadable: set<Path>)
    requires Distinct(dirty)
    ensures ManifestInv(Captured(disk, dirty, unreadable).m)
    ensures CaptureFaithful(Captured(disk, dirty, unreadable), disk, dirty, unreadable)
  {
    if dirty != [] {
      var before, p := dirty[..|dirty| - 1], dirty[|dirty| - 1];
      CaptureClassifies(disk, before, unreadable);
      assert dirty == before + [p] && p !in before;
      CaptureOneFaithful(Captured(disk, before, unreadable), disk, before, p, unreadable);
      CaptureOneInv(Captured(disk, before, unreadable), p, unreadable);
    }
  }

  lemma AnnouncedInv(w: World, p: Path, copyOk: bool)
    requires ManifestInv(w.m) && Objection(w, p, copyOk) == None
    ensures ManifestInv(Announced(w, p).m)
  {
    if p !in w.m.files && p !in w.m.missing && p in w.disk {
      AddImageInv(w, p, w.disk[p]);
    }
  }

  /** A dirty path is left unpreserved exactly when it cannot be read or when it does not fit at its turn. */
  lemma {:induction false} SkippedOnlyAtTheCap(disk: Disk, dirty: seq<Path>, unreadable: set<Path>, i: nat)
    requires Distinct(dirty) && i < |dirty|
    ensures var m := Captured(disk, dirty[..i], unreadable).m;
      dirty[i] in Captured(disk, dirty, unreadable).m.skipped <==>
        dirty[i] in unreadable || (dirty[i] in disk && !HasRoom(m, |disk[dirty[i]]|))
    decreases |dirty|
  {
    var before, p := dirty[..|dirty| - 1], dirty[|dirty| - 1];
    SkippedThisRound(Captured(disk, before, unreadable), p, unreadable, dirty[i]);
    if i < |before| {
      SkippedOnlyAtTheCap(disk, before, unreadable, i);
      assert before[..i] == dirty[..i];
    } else {
      CaptureClassifies(disk, before, unreadable);
      assert p !in before;
    }
  }

  /** The three caps, spelled out: one more file of this size keeps to the count, the size of a file and the total. */
  predicate HasRoom(m: Manifest, size: nat) {
    |m.files| < MAX_SNAPSHOT_FILES && size <= MAX_SNAPSHOT_FILE_BYTES && TotalSize(m.files, m.sizes) + size <= MAX_SNAPSHOT_TOTAL_BYTES
  }

  lemma FitsExactly(m: Manifest, size: nat)
    ensures Fits(|m.files|, TotalSize(m.files, m.sizes), size) <==> HasRoom(m, size)
  {
  }

  /** The total grows by the size of each preserved file. */
  lemma TotalSizeOneMore(files: seq<Path>, sizes: map<Path, nat>, p: Path)
    requires p in sizes
    ensures TotalSize(files + [p], sizes) == TotalSize(files, sizes) + sizes[p]
    ensures TotalSize([], sizes) == 0
  {
    assert (files + [p])[..|files|] == files;
  }

  lemma SkippedThisRound(w: World, p: Path, unreadable: set<Path>, q: Path)
    ensures q in CaptureOne(w, p, unreadable).m.skipped <==>
            q in w.m.skipped || (q == p &&
              (p in unreadable || (p in w.disk && !Fits(|w.m.files|, TotalSize(w.m.files, w.m.sizes), |w.disk[p]|))))
  {
  }

  // ---------------------------------------------------------------- whole runs

  /**
   What can happen to one workspace: the task's journaled writes, anybody else's edits, damage to an image, a rewind.
   `saved` is false when the manifest cannot be saved at the end of the step.
   */
  datatype Action =
    | BeforeWrite(path: Path, copyOk: bool, saved: bool)
    | TaskEdit(path: Path, file: Option<Content>)
    | AfterWrite(path: Path, saved: bool)
    | OutsideEdit(path: Path, file: Option<Content>)
    | DamageImage(path: Path, file: Option<Content>)
    | Restore(failing: set<Path>, saved: bool)

  /**
   A run with its history: `first` is the file found by the first accepted write of each path,
   `confirmed` the content last confirmed by `after_write` or `restore`, `disturbed` the journaled
   paths that somebody else edited, `damaged` the paths whose image was tampered with, `unsaved` the paths that a
   restore changed without being able to save their records, `open` the paths with an accepted write that was not
   confirmed yet.
   */
  datatype Run = Run(w: World, first: map<Path, Option<Content>>, confirmed: map<Path, Option<Content>>,
                     disturbed: set<Path>, damaged: set<Path>, unsaved: set<Path>, open: set<Path>)

  predicate Announces(w: World, p: Path) {
    p in w.m.touched && w.m.touched[p].Pending?
  }

  function Step(r: Run, a: Action): Run {
    match a
    case BeforeWrite(p, copyOk, saved) =>
      if Objection(r.w, p, copyOk).Some? then r
      else if !saved then r.(w := AnnouncedUnsaved(r.w, p))
      else r.(w := Announced(r.w, p), first := if p in r.first then r.first else r.first[p := Lookup(r.w.disk, p)],
              unsaved := r.unsaved - {p}, open := r.open + {p})
    case TaskEdit(p, f) =>
      if Announces(r.w, p) then r.(w := r.w.(disk := Put(r.w.disk, p, f))) else r
    case AfterWrite(p, saved) =>
      if Announces(r.w, p) && saved then r.(w := ConfirmedWrite(r.w, p), confirmed := r.confirmed[p := Lookup(r.w.disk, p)],
                                            unsaved := r.unsaved - {p}, open := r.open - {p})
      else r
    case OutsideEdit(p, f) =>
      r.(w := r.w.(disk := Put(r.w.disk, p, f)), disturbed := if p in r.first then r.disturbed + {p} else r.disturbed)
    case DamageImage(p, f) =>
      r.(w := r.w.(images := Put(r.w.images, p, f)), damaged := r.damaged + {p})
    case Restore(failing, saved) => if saved then AfterRestore(r, failing) else AfterUnsavedRestore(r, failing)
  }

  predicate Rewound(w: World, failing: set<Path>, p: Path) {
    FateOf(w, failing, p) in {Rewritten, Removed}
  }

  function AfterRestore(r: Run, failing: set<Path>): Run {
    r.(w := Restored(r.w, failing),
       confirmed := map p | p in r.first && (p in r.confirmed || Rewound(r.w, failing, p)) ::
         if Rewound(r.w, failing, p) then FileAfter(r.w, failing, p) else r.confirmed[p],
       unsaved := set p | p in r.unsaved && !Rewound(r.w, failing, p))
  }

  function AfterUnsavedRestore(r: Run, failing: set<Path>): Run {
    r.(w := RestoredUnsaved(r.w, failing),
       unsaved := r.unsaved + set p | p in r.w.m.touched && FileAfter(r.w, failing, p) != Lookup(r.w.disk, p))
  }

  function RunFrom(r: Run, actions: seq<Action>): Run {
    if actions == [] then r else Step(RunFrom(r, actions[..|actions| - 1]), actions[|actions| - 1])
  }

  function Begin(disk: Disk, dirty: seq<Path>, unreadable: set<Path>): Run {
    Run(Captured(disk, dirty, unreadable), map[], map[], {}, {}, {}, {})
  }

  /** The stored image of a path is what its first accepted write found there. */
  ghost predicate PreimageAt(r: Run, p: Path) {
    && (p in r.first <==> p in r.w.m.touched) && (p in r.open <==> Announces(r.w, p))
    && (p in r.w.m.files && p !in r.damaged ==>
         p in r.w.images && p in r.w.m.digests && Digest(r.w.images[p]) == r.w.m.digests[p])
    && (p in r.first ==>
         DigestOf(r.first[p]) == if p in r.w.m.digests then Some(r.w.m.digests[p]) else None)
  }

  /**
   A confirmed record is the digest of the confirmed content, which is still on disk unless somebody else edited the
   path or a restore could not save its record; in that case the path is back on its first preimage.
   */
  ghost predicate RecordAt(r: Run, p: Path) {
    p in r.w.m.touched && r.w.m.touched[p].Confirmed? ==>
      && p in r.confirmed && r.w.m.touched[p].digest == DigestOf(r.confirmed[p])
      && (p !in r.disturbed && p !in r.unsaved ==> Lookup(r.w.disk, p) == r.confirmed[p])
      && (p !in r.disturbed && p in r.unsaved ==> p in r.first && Lookup(r.w.disk, p) == r.first[p])
  }

  ghost predicate RunInv(r: Run) {
    ManifestInv(r.w.m) && forall p :: PreimageAt(r, p) && RecordAt(r, p)
  }

  lemma BeginInv(disk: Disk, dirty: seq<Path>, unreadable: set<Path>)
    requires Distinct(dirty)
    ensures RunInv(Begin(disk, dirty, unreadable))
  {
    CaptureClassifies(disk, dirty, unreadable);
  }

  lemma BeforeWriteAt(r: Run, p: Path, copyOk: bool, q: Path)
    requires RunInv(r) && Objection(r.w, p, copyOk).None?
    ensures PreimageAt(Step(r, BeforeWrite(p, copyOk, true)), q) && RecordAt(Step(r, BeforeWrite(p, copyOk, true)), q)
  {
    assert PreimageAt(r, q) && RecordAt(r, q);
  }

  lemma UnsavedBeforeWriteInv(r: Run, p: Path)
    requires RunInv(r)
    ensures RunInv(r.(w := AnnouncedUnsaved(r.w, p)))
  {
    var n := r.(w := AnnouncedUnsaved(r.w, p));
    forall q
      ensures PreimageAt(n, q) && RecordAt(n, q)
    {
      assert PreimageAt(r, q) && RecordAt(r, q);
    }
  }

  lemma RestoreInv(r: Run, failing: set<Path>)
    requires RunInv(r)
    ensures RunInv(AfterRestore(r, failing))
  {
    var n := AfterRestore(r, failing);
    forall p
      ensures PreimageAt(n, p) && RecordAt(n, p)
    {
      assert PreimageAt(r, p) && RecordAt(r, p);
      RestoredAt(r.w, failing, p);
    }
  }

  lemma UnsavedRestoreAt(r: Run, failing: set<Path>, p: Path)
    requires RunInv(r)
    ensures PreimageAt(AfterUnsavedRestore(r, failing), p) && RecordAt(AfterUnsavedRestore(r, failing), p)
  {
    assert PreimageAt(r, p) && RecordAt(r, p);
    RestoredAt(r.w, failing, p);
  }

  lemma UnsavedRestoreInv(r: Run, failing: set<Path>)
    requires RunInv(r)
    ensures RunInv(AfterUnsavedRestore(r, failing))
  {
    forall p
      ensures PreimageAt(AfterUnsavedRestore(r, failing), p) && RecordAt(AfterUnsavedRestore(r, failing), p)
    {
      UnsavedRestoreAt(r, failing, p);
    }
  }

  lemma EditOrConfirmAt(r: Run, a: Action, q: Path)
    requires RunInv(r) && !a.BeforeWrite? && !a.Restore?
    ensures PreimageAt(Step(r, a), q) && RecordAt(Step(r, a), q)
  {
    assert PreimageAt(r, q) && RecordAt(r, q);
  }

  lemma StepInv(r: Run, a: Action)
    requires RunInv(r)
    ensures RunInv(Step(r, a))
  {
    match a
    case BeforeWrite(p, copyOk, saved) =>
      if Objection(r.w, p, copyOk).None? && saved {
        AnnouncedInv(r.w, p, copyOk);
        forall q
          ensures PreimageAt(Step(r, a), q) && RecordAt(Step(r, a), q)
        {
          BeforeWriteAt(r, p, copyOk, q);
        }
      } else if Objection(r.w, p, copyOk).None? {
        UnsavedBeforeWriteInv(r, p);
      }
    case Restore(failing, saved) => if saved { RestoreInv(r, failing); } else { UnsavedRestoreInv(r, failing); }
    case _ =>
      forall q
        ensures PreimageAt(Step(r, a), q) && RecordAt(Step(r, a), q)
      {
        EditOrConfirmAt(r, a, q);
      }
      assert ManifestInv(Step(r, a).w.m);
  }

  lemma {:induction false} EveryRunKeepsInv(r: Run, actions: seq<Action>)
    requires RunInv(r)
    ensures RunInv(RunFrom(r, actions))
  {
    if actions != [] {
      EveryRunKeepsInv(r, actions[..|actions| - 1]);
      StepInv(RunFrom(r, actions[..|actions| - 1]), actions[|actions| - 1]);
    }
  }

  lemma ReachableAt(disk: Disk, dirty: seq<Path>, unreadable: set<Path>, actions: seq<Action>, p: Path)
    requires Distinct(dirty)
    ensures var r := RunFrom(Begin(disk, dirty, unreadable), actions);
      ManifestInv(r.w.m) && PreimageAt(r, p) && RecordAt(r, p)
  {
    BeginInv(disk, dirty, unreadable);
    EveryRunKeepsInv(Begin(disk, dirty, unreadable), actions);
  }

  /** No lost outside edit, in every reachable state: a rewind changes a file only if it still holds what was last confirmed. */
  lemma RestoreChangesOnlyConfirmedFiles(disk: Disk, dirty: seq<Path>, unreadable: set<Path>, actions: seq<Action>,
                                         failing: set<Path>, p: Path)
    requires Distinct(dirty)
    ensures var r := RunFrom(Begin(disk, dirty, unreadable), actions);
      Lookup(Restored(r.w, failing).disk, p) != Lookup(r.w.disk, p) ==>
        && p in r.first && !Announces(r.w, p) && p in r.confirmed && Lookup(r.w.disk, p) == r.confirmed[p]
        && Lookup(Restored(r.w, failing).disk, p) == r.first[p]
  {
    ReachableAt(disk, dirty, unreadable, actions, p);
    RestoredAt(RunFrom(Begin(disk, dirty, unreadable), actions).w, failing, p);
  }

  /** What a caller can check before a rewind: the path still matches its record and its image is whole. */
  predicate Rewindable(w: World, p: Path) {
    && p in w.m.touched && w.m.touched[p] == Confirmed(DigestOf(Lookup(w.disk, p)))
    && (p in w.m.digests ==> p in w.images && Digest(w.images[p]) == w.m.digests[p])
  }

  /** In every reachable state a rewind ends on the first preimage exactly where the path is rewindable or already there. */
  lemma RewindExactly(disk: Disk, dirty: seq<Path>, unreadable: set<Path>, actions: seq<Action>, p: Path)
    requires Distinct(dirty)
    ensures var r := RunFrom(Begin(disk, dirty, unreadable), actions);
      p in r.first ==>
        (Lookup(Restored(r.w, {}).disk, p) == r.first[p] <==> Rewindable(r.w, p) || Lookup(r.w.disk, p) == r.first[p])
  {
    ReachableAt(disk, dirty, unreadable, actions, p);
    RestoredAt(RunFrom(Begin(disk, dirty, unreadable), actions).w, {}, p);
  }

  /**
   The rewind theorem: after any run, a path whose writes were all confirmed, that nobody else edited after its
   first write and whose image is whole goes back to what that first write found; a path never written stays put.
   Manifest saves may have failed on the way.
   */
  lemma Rewind(disk: Disk, dirty: seq<Path>, unreadable: set<Path>, actions: seq<Action>, p: Path)
    requires Distinct(dirty)
    ensures var r := RunFrom(Begin(disk, dirty, unreadable), actions);
      && (p in r.first && !Announces(r.w, p) && p !in r.disturbed && p !in r.damaged ==>
           Lookup(Restored(r.w, {}).disk, p) == r.first[p])
      && (p !in r.first ==> Lookup(Restored(r.w, {}).disk, p) == Lookup(r.w.disk, p))
  {
    ReachableAt(disk, dirty, unreadable, actions, p);
    RestoredAt(RunFrom(Begin(disk, dirty, unreadable), actions).w, {}, p);
  }

  /** Between `before_write` and `after_write` a path is closed: no second write is accepted and no rewind moves it. */
  lemma PendingPathIsClosed(w: World, p: Path, copyOk: bool, failing: set<Path>)
    requires Announces(w, p)
    ensures Objection(w, p, copyOk) == Some(WriteNotConfirmed)
    ensures Lookup(Restored(w, failing).disk, p) == Lookup(w.disk, p)
    ensures Announces(Restored(w, failing), p)
  {
    RestoredAt(w, failing, p);
  }

  /** Whatever has a preimage, or is known to have had none, was captured so or written since. */
  ghost predicate ListsExplained(r: Run, c: Manifest) {
    forall p :: p in r.w.m.files || p in r.w.m.missing ==> p in c.files || p in c.missing || p in r.first
  }

  lemma StepKeepsExplained(r: Run, a: Action, c: Manifest)
    requires ListsExplained(r, c)
    ensures ListsExplained(Step(r, a), c)
  {
  }

  lemma {:induction false} EveryRunExplains(start: Run, actions: seq<Action>)
    ensures ListsExplained(RunFrom(start, actions), start.w.m)
  {
    if actions != [] {
      EveryRunExplains(start, actions[..|actions| - 1]);
      StepKeepsExplained(RunFrom(start, actions[..|actions| - 1]), actions[|actions| - 1], start.w.m);
    }
  }

  /**
   What before_write must answer after a run, from its history alone. A path written before is open, or changed since
   its last confirmed content, or free again. A path that was dirty at capture needs its preimage and must be as it
   was then. Any other path is free if there is no file, and needs a copy that succeeds and has room if there is one.
   */
  ghost function Answer(r: Run, disk: Disk, dirty: seq<Path>, unreadable: set<Path>, p: Path, copyOk: bool): Option<Refusal>
    requires p in r.first && p !in r.open ==> p in r.confirmed
  {
    var now := Lookup(r.w.disk, p);
    if p in r.open then Some(WriteNotConfirmed)
    else if p in r.first then if now == r.confirmed[p] then None else Some(ChangedSinceWrite)
    else if p in dirty then
      if p in Captured(disk, dirty, unreadable).m.skipped then Some(NoPreimage)
      else if now == Lookup(disk, p) then None
      else if p in disk then Some(ChangedSinceCapture) else Some(CreatedSinceCapture)
    else if now == None || (copyOk && HasRoom(r.w.m, |now.value|)) then None
    else Some(CopyFailed)
  }

  /** After any run from a capture, exactly these writes are accepted, and each other one is refused for its reason. */
  lemma AcceptedExactly(disk: Disk, dirty: seq<Path>, unreadable: set<Path>, actions: seq<Action>, p: Path, copyOk: bool)
    requires Distinct(dirty)
    ensures var r := RunFrom(Begin(disk, dirty, unreadable), actions);
      (p in r.first && p !in r.open ==> p in r.confirmed) && Objection(r.w, p, copyOk) == Answer(r, disk, dirty, unreadable, p, copyOk)
  {
    var start := Begin(disk, dirty, unreadable);
    var r := RunFrom(start, actions);
    ReachableAt(disk, dirty, unreadable, actions, p);
    CaptureClassifies(disk, dirty, unreadable);
    CapturedListsOnlyGrow(start, actions);
    EveryRunExplains(start, actions);
    AnswersAlike(start.w.m, r, disk, dirty, unreadable, p, copyOk);
  }

  lemma AnswersWritten(r: Run, disk: Disk, dirty: seq<Path>, unreadable: set<Path>, p: Path, copyOk: bool)
    requires p in r.first && ManifestInv(r.w.m) && PreimageAt(r, p) && RecordAt(r, p)
    ensures (p in r.first && p !in r.open ==> p in r.confirmed) && Objection(r.w, p, copyOk) == Answer(r, disk, dirty, unreadable, p, copyOk)
  {
  }

  lemma AnswersCaptured(c: Manifest, r: Run, disk: Disk, dirty: seq<Path>, unreadable: set<Path>, p: Path, copyOk: bool)
    requires c == Captured(disk, dirty, unreadable).m && CaptureFaithful(Captured(disk, dirty, unreadable), disk, dirty, unreadable)
    requires ManifestInv(c) && ManifestInv(r.w.m) && ListsGrow(c, r.w.m) && ListsExplained(r, c)
    requires PreimageAt(r, p) && RecordAt(r, p)
    requires p !in r.first && p in dirty
    ensures Objection(r.w, p, copyOk) == Answer(r, disk, dirty, unreadable, p, copyOk)
  {
    if p in c.files {
      assert p in r.w.m.files && r.w.m.digests[p] == Digest(disk[p]);
    }
  }

  lemma AnswersAlike(c: Manifest, r: Run, disk: Disk, dirty: seq<Path>, unreadable: set<Path>, p: Path, copyOk: bool)
    requires c == Captured(disk, dirty, unreadable).m && CaptureFaithful(Captured(disk, dirty, unreadable), disk, dirty, unreadable)
    requires ManifestInv(c) && ManifestInv(r.w.m) && ListsGrow(c, r.w.m) && ListsExplained(r, c)
    requires PreimageAt(r, p) && RecordAt(r, p)
    ensures (p in r.first && p !in r.open ==> p in r.confirmed) && Objection(r.w, p, copyOk) == Answer(r, disk, dirty, unreadable, p, copyOk)
  {
    if p in r.first {
      AnswersWritten(r, disk, dirty, unreadable, p, copyOk);
    } else if p in dirty {
      AnswersCaptured(c, r, disk, dirty, unreadable, p, copyOk);
    }
  }

  /** An accepted write never overwrites what somebody else left: the path holds what the journal or the capture knows. */
  lemma AcceptedWriteIsSafe(disk: Disk, dirty: seq<Path>, unreadable: set<Path>, actions: seq<Action>, p: Path, copyOk: bool)
    requires Distinct(dirty)
    ensures var r := RunFrom(Begin(disk, dirty, unreadable), actions);
      Objection(r.w, p, copyOk).None? ==>
        && (p in r.first ==> p in r.confirmed && Lookup(r.w.disk, p) == r.confirmed[p])
        && (p !in r.first && p in dirty ==> Lookup(r.w.disk, p) == Lookup(disk, p))
  {
    ReachableAt(disk, dirty, unreadable, actions, p);
    CaptureClassifies(disk, dirty, unreadable);
    CapturedListsOnlyGrow(Begin(disk, dirty, unreadable), actions);
    assert p in Begin(disk, dirty, unreadable).w.m.files ==> p in RunFrom(Begin(disk, dirty, unreadable), actions).w.m.files;
  }

  /** From one manifest to a later one: nothing preserved is dropped, no digest changes, nothing new is skipped. */
  ghost predicate ListsGrow(m: Manifest, n: Manifest) {
    && (forall p :: p in m.files ==> p in n.files)
    && (forall p :: p in m.missing ==> p in n.missing)
    && m.skipped == n.skipped
    && (forall p :: p in m.files && p in m.digests ==> p in n.digests && n.digests[p] == m.digests[p])
  }

  lemma StepGrows(r: Run, a: Action)
    ensures ListsGrow(r.w.m, Step(r, a).w.m)
  {
  }

  lemma {:induction false} CapturedListsOnlyGrow(r: Run, actions: seq<Action>)
    ensures ListsGrow(r.w.m, RunFrom(r, actions).w.m)
  {
    if actions != [] {
      CapturedListsOnlyGrow(r, actions[..|actions| - 1]);
      StepGrows(RunFrom(r, actions[..|actions| - 1]), actions[|actions| - 1]);
    }
  }

  /** One write of a clean file, a rewind whose manifest cannot be saved, and the retry: the file is back, but closed. */
  lemma LostRecordClosesThePath(p: Path, before: Content, after: Content, copyOk: bool)
    requires before != after && |before| <= MAX_SNAPSHOT_FILE_BYTES
    ensures var start := Begin(map[p := before], [], {});
      var written := Step(Step(Step(start, BeforeWrite(p, true, true)), TaskEdit(p, Some(after))), AfterWrite(p, true));
      var r := Step(Step(written, Restore({}, false)), Restore({}, true));
      && Lookup(written.w.disk, p) == Some(after) && Rewindable(written.w, p)
      && Lookup(r.w.disk, p) == Some(before)
      && Objection(r.w, p, copyOk) == Some(ChangedSinceWrite)
  {
    var start := Begin(map[p := before], [], {});
    assert start.w == World(map[p := before], map[], EMPTY_MANIFEST);
    var announced := Step(start, BeforeWrite(p, true, true));
    FirstWrite(start, p, before, after);
    var written := Step(Step(announced, TaskEdit(p, Some(after))), AfterWrite(p, true));
    LostRecord(written.w, p, copyOk);
  }

  lemma FirstWrite(start: Run, p: Path, before: Content, after: Content)
    requires start.w == World(map[p := before], map[], EMPTY_MANIFEST) && |before| <= MAX_SNAPSHOT_FILE_BYTES
    ensures var w := Step(Step(Step(start, BeforeWrite(p, true, true)), TaskEdit(p, Some(after))), AfterWrite(p, true)).w;
      && Lookup(w.disk, p) == Some(after) && Rewindable(w, p)
      && FateOf(w, {}, p) == Rewritten && FileAfter(w, {}, p) == Some(before)
  {
    assert Objection(start.w, p, true) == None;
    var announced := Announced(start.w, p);
    assert announced.m.touched == map[p := Pending] && announced.images == map[p := before];
  }

  lemma LostRecord(w: World, p: Path, copyOk: bool)
    requires FateOf(w, {}, p) == Rewritten && FileAfter(w, {}, p) != Lookup(w.disk, p)
    ensures var r := Restored(RestoredUnsaved(w, {}), {});
      Lookup(r.disk, p) == FileAfter(w, {}, p) && Objection(r, p, copyOk) == Some(ChangedSinceWrite)
  {
    RestoredAt(w, {}, p);
    RetryAfterFailedSave(w, {}, copyOk);
    assert !AlreadyBack(w, {}, p);
  }

  // ---------------------------------------------------------------- the journal object

  /** The manifest of one task beside the workspace it protects; every method is one locked read-modify-write. */
  class SnapshotJournal {
    var disk: Disk
    var images: Disk
    var files: seq<Path>
    var digests: map<Path, Digest>
    var sizes: map<Path, nat>
    var missing: seq<Path>
    var skipped: seq<Path>
    var touched: map<Path, Record>
    var journal: seq<Path>

    ghost function State(): World
      reads this
    {
      World(disk, images, Manifest(files, digests, sizes, missing, skipped, touched, journal))
    }

    ghost predicate Valid()
      reads this
    {
      ManifestInv(State().m)
    }

    /** `capture`: preserve each dirty file once, in the order given. */
    constructor Capture(workspace: Disk, dirty: seq<Path>, unreadable: set<Path>)
      requires Distinct(dirty)
      ensures State() == Captured(workspace, dirty, unreadable) && Valid()
    {
      disk, images := workspace, map[];
      files, digests, sizes, missing, skipped, touched, journal := [], map[], map[], [], [], map[], [];
      new;
      var used, i := 0, 0;
      while i < |dirty|
        invariant 0 <= i <= |dirty|
        invariant State() == Captured(workspace, dirty[..i], unreadable)
        invariant used == TotalSize(files, sizes)
        invariant forall p :: p in files ==> p in dirty[..i]
      {
        var p := dirty[i];
        assert dirty[..i + 1][..i] == dirty[..i];
        if p in unreadable {
          skipped := skipped + [p];
        } else if p !in disk {
          missing := missing + [p];
        } else if !Fits(|files|, used, |disk[p]|) {
          skipped := skipped + [p];
        } else {
          used := CopyPreimage(p, used);
        }
        i := i + 1;
      }
      assert dirty[..i] == dirty;
      CaptureClassifies(workspace, dirty, unreadable);
    }

    /** Keep the file as it is now: its image, digest and size; `used` is the running byte count. */
    method CopyPreimage(p: Path, used: nat) returns (total: nat)
      requires p in disk && p !in files && used == TotalSize(files, sizes)
      modifies this`images, this`files, this`digests, this`sizes
      ensures State() == AddImage(old(State()), p, disk[p])
      ensures total == TotalSize(files, sizes)
    {
      TotalSizeFrame(files, sizes, p, |disk[p]|);
      assert (files + [p])[..|files|] == files;
      images := images[p := disk[p]];
      files, digests, sizes := files + [p], digests[p := Digest(disk[p])], sizes[p := |disk[p]|];
      total := used + |disk[p]|;
    }

    /** The bytes already spent on images: a sum over the manifest's sizes. */
    method UsedBytes() returns (used: nat)
      ensures used == TotalSize(files, sizes)
    {
      used := 0;
      for i := 0 to |files|
        invariant used == TotalSize(files[..i], sizes)
      {
        assert files[..i + 1][..i] == files[..i];
        used := used + if files[i] in sizes then sizes[files[i]] else 0;
      }
      assert files[..|files|] == files;
    }

    /** `copyOk` and `saved` say whether the copy of a preimage and the save of the manifest succeed. */
    method BeforeWrite(p: Path, copyOk: bool, saved: bool) returns (refusal: Option<Refusal>)
      requires Valid()
      modifies this
      ensures var why := Objection(old(State()), p, copyOk);
        && refusal == (if why.Some? then why else if saved then None else Some(SaveFailed))
        && State() == if why.Some? then old(State()) else if saved then Announced(old(State()), p) else AnnouncedUnsaved(old(State()), p)
      ensures Valid()
    {
      var present := if p in disk then Some(Digest(disk[p])) else None;
      if p in touched {
        if touched[p].Pending? {
          return Some(WriteNotConfirmed);
        }
        if touched[p].digest != present {
          return Some(ChangedSinceWrite);
        }
      }
      if p in skipped {
        return Some(NoPreimage);
      }
      if p !in touched && p in digests && present != Some(digests[p]) {
        return Some(ChangedSinceCapture);
      }
      if p !in files && p !in missing {
        if p in disk {
          var used := UsedBytes();
          if !copyOk || !Fits(|files|, used, |disk[p]|) {
            return Some(CopyFailed);
          }
          AnnouncedInv(State(), p, copyOk);
          if !saved {
            images := images[p := disk[p]];
            return Some(SaveFailed);
          }
          var _ := CopyPreimage(p, used);
        } else {
          AnnouncedInv(State(), p, copyOk);
          if !saved {
            return Some(SaveFailed);
          }
          missing := missing + [p];
        }
      } else if p in missing && p in disk && p !in touched {
        return Some(CreatedSinceCapture);
      } else {
        AnnouncedInv(State(), p, copyOk);
        if !saved {
          return Some(SaveFailed);
        }
      }
      if p !in touched {
        journal := journal + [p];
      }
      touched := touched[p := Pending];
      refusal := None;
    }

    /** False when the manifest cannot be saved, which leaves the write announced but not confirmed. */
    method AfterWrite(p: Path, saved: bool) returns (confirmed: bool)
      modifies this
      ensures confirmed == saved
      ensures State() == if saved then ConfirmedWrite(old(State()), p) else old(State())
    {
      if !saved {
        return false;
      }
      if p !in touched {
        journal := journal + [p];
      }
      touched := touched[p := Confirmed(if p in disk then Some(Digest(disk[p])) else None)];
      confirmed := true;
    }

    /** One round of the restore loop; `w` is the world in which the restore began, not yet changed at `p`. */
    method RestoreOne(p: Path, failing: set<Path>, ghost w: World) returns (fate: Fate)
      requires State() == w.(disk := disk, m := w.m.(touched := touched))
      requires p in w.m.touched && p in touched && touched[p] == w.m.touched[p] && Lookup(disk, p) == Lookup(w.disk, p)
      modifies this`disk, this`touched
      ensures fate == FateOf(w, failing, p)
      ensures disk == Put(old(disk), p, FileAfter(w, failing, p))
      ensures touched == old(touched)[p := RecordAfter(w, failing, p)]
    {
      fate := Skipped;
      if touched[p] != Confirmed(if p in disk then Some(Digest(disk[p])) else None) {
        fate := Conflict;
      } else if p in files && p in images {
        if (p !in digests || Digest(images[p]) == digests[p]) && p !in failing {
          disk := disk[p := images[p]];
          touched := touched[p := Confirmed(Some(Digest(disk[p])))];
          fate := Rewritten;
        }
      } else if p in missing && p !in failing {
        disk := disk - {p};
        touched := touched[p := Confirmed(None)];
        fate := Removed;
      }
    }

    /** `restore`: one pass over the journal, reporting what became of each path; no report if the save raises. */
    method Restore(failing: set<Path>, saved: bool) returns (report: Option<Report>)
      requires Valid()
      modifies this`disk, this`touched
      ensures State() == (if saved then Restored(old(State()), failing) else RestoredUnsaved(old(State()), failing)) && Valid()
      ensures report == if saved then Some(ReportOf(journal, old(State()), failing)) else None
    {
      var stored := touched;
      var full := RestoreAll(failing);
      report := Some(full);
      if !saved {
        touched := stored;
        report := None;
      }
    }

    /** The pass itself, on the manifest in memory. */
    method RestoreAll(failing: set<Path>) returns (report: Report)
      requires Valid()
      modifies this`disk, this`touched
      ensures State() == Restored(old(State()), failing) && Valid()
      ensures report == ReportOf(journal, old(State()), failing)
    {
      ghost var w := State();
      var paths := journal;
      report := Report([], [], [], []);
      var i := 0;
      while i < |paths|
        invariant 0 <= i <= |paths|
        invariant Midway(w, failing, disk, touched, paths[..i])
        invariant report == ReportOf(paths[..i], w, failing)
      {
        var p := paths[i];
        ghost var before := paths[..i];
        assert paths[..i + 1] == before + [p];
        ghost var d, t := disk, touched;
        NotYetVisited(w, failing, d, t, before, p);
        var fate := RestoreOne(p, failing, w);
        MidwayStep(w, failing, d, t, before, p);
        ReportOneMore(paths, i, w, failing);
        report := Filed(report, p, fate);
        i := i + 1;
      }
      assert paths[..i] == paths;
      AllRestored(w, failing, disk, touched);
    }
  }

  /** The list that a path of this fate is appended to. */
  function Filed(report: Report, p: Path, fate: Fate): Report {
    match fate
    case Rewritten => report.(restored := report.restored + [p])
    case Removed => report.(removed := report.removed + [p])
    case Skipped => report.(skipped := report.skipped + [p])
    case Conflict => report.(conflicts := report.conflicts + [p])
  }

  lemma ReportOneMore(paths: seq<Path>, i: nat, w: World, failing: set<Path>)
    requires i < |paths|
    ensures ReportOf(paths[..i + 1], w, failing) == Filed(ReportOf(paths[..i], w, failing), paths[i], FateOf(w, failing, paths[i]))
  {
    assert paths[..i + 1][..i] == paths[..i];
  }

  /** In the middle of a restore, over all paths. */
  ghost predicate Midway(w: World, failing: set<Path>, disk: Disk, touched: map<Path, Record>, done: seq<Path>) {
    touched.Keys == w.m.touched.Keys && forall p :: HalfRestored(w, failing, disk, touched, done, p)
  }

  lemma NotYetVisited(w: World, failing: set<Path>, disk: Disk, touched: map<Path, Record>, done: seq<Path>, p: Path)
    requires Midway(w, failing, disk, touched, done) && p in w.m.touched && p !in done
    ensures p in touched && touched[p] == w.m.touched[p] && Lookup(disk, p) == Lookup(w.disk, p)
  {
    assert HalfRestored(w, failing, disk, touched, done, p);
  }

  lemma MidwayStep(w: World, failing: set<Path>, disk: Disk, touched: map<Path, Record>, done: seq<Path>, p: Path)
    requires Midway(w, failing, disk, touched, done) && p in w.m.touched && p !in done
    ensures Midway(w, failing, Put(disk, p, FileAfter(w, failing, p)), touched[p := RecordAfter(w, failing, p)], done + [p])
  {
    var disk', touched', done' := Put(disk, p, FileAfter(w, failing, p)), touched[p := RecordAfter(w, failing, p)], done + [p];
    forall q
      ensures HalfRestored(w, failing, disk', touched', done', q)
    {
      OneMoreRestored(w, failing, disk, touched, done, p, q);
    }
  }

  /** In the middle of a restore: the paths already visited have their final file and record, the others their old ones. */
  ghost predicate HalfRestored(w: World, failing: set<Path>, disk: Disk, touched: map<Path, Record>, done: seq<Path>, p: Path) {
    && (p in done ==> p in w.m.touched)
    && Lookup(disk, p) == (if p in done then FileAfter(w, failing, p) else Lookup(w.disk, p))
    && (p in touched <==> p in w.m.touched)
    && (p in touched ==> touched[p] == if p in done then RecordAfter(w, failing, p) else w.m.touched[p])
  }

  lemma OneMoreRestored(w: World, failing: set<Path>, disk: Disk, touched: map<Path, Record>, done: seq<Path>, p: Path, q: Path)
    requires p in w.m.touched && p !in done
    requires HalfRestored(w, failing, disk, touched, done, q)
    ensures HalfRestored(w, failing, Put(disk, p, FileAfter(w, failing, p)), touched[p := RecordAfter(w, failing, p)], done + [p], q)
  {
  }

  lemma AllRestored(w: World, failing: set<Path>, disk: Disk, touched: map<Path, Record>)
    requires forall p :: p in w.m.touched <==> p in w.m.journal
    requires touched.Keys == w.m.touched.Keys
    requires forall p :: HalfRestored(w, failing, disk, touched, w.m.journal, p)
    ensures w.(disk := disk, m := w.m.(touched := touched)) == Restored(w, failing)
  {
    forall p
      ensures Lookup(disk, p) == Lookup(Restored(w, failing).disk, p)
      ensures p in touched ==> touched[p] == Restored(w, failing).m.touched[p]
    {
      assert HalfRestored(w, failing, disk, touched, w.m.journal, p);
      RestoredAt(w, failing, p);
    }
    SameDisk(disk, Restored(w, failing).disk);
    assert touched == Restored(w, failing).m.touched;
  }
}
