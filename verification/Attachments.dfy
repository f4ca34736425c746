/** Content-addressed attachments: one database row and one file on disk per distinct content
    of a finding.  The digest function is a parameter and may collide. */
module Attachments {
  import opened Wrappers
  import opened AuditLog

  type Bytes = seq<bv8>
  datatype Digest = Digest(hex: int)
  type Hash = Bytes -> Digest

  /** A file name in a finding's bucket: a finished blob, or a temporary file. */
  datatype Name = Blob(digest: Digest) | Temp(tag: string)
  datatype Path = Path(finding: Id, name: Name)

  datatype Row = Row(finding: Id, digest: Digest, size: nat, isInline: bool, uploadedBy: Id)

  /** Who reported a finding, and who is assigned to it. */
  datatype Team = Team(reporter: Id, researchers: set<Id>)

  /** Primary keys are drawn from a counter, as time-ordered unique keys.  `uploaded` is
      history: the bytes that were stored when each row was created. */
  datatype Db = Db(
    findings: map<Id, Team>, rows: map<Id, Row>, disk: map<Path, Bytes>, next: nat, uploaded: map<Id, Bytes>)

  /** An uploaded file; a chunk that cannot be read or written is None. */
  datatype File = File(name: string, size: nat, chunks: seq<Option<Bytes>>)

  datatype Verdict = Created | Duplicate | TooBig | Crashed | Rejected | NotFound

  // ----- specification ----------------------------------------------------------------------

  /** The bytes of a file, or None if some chunk fails. */
  function Content(chunks: seq<Option<Bytes>>): Option<Bytes> {
    if chunks == [] then Some([]) else
      var front := Content(chunks[..|chunks| - 1]);
      var last := chunks[|chunks| - 1];
      if front.None? || last.None? then None else Some(front.value + last.value)
  }

  /** Writing content under its digest; an existing file is left alone. */
  function Store(disk: map<Path, Bytes>, finding: Id, content: Bytes, h: Hash): map<Path, Bytes> {
    var p := Path(finding, Blob(h(content)));
    if p in disk then disk else disk[p := content]
  }

  predicate Attached(rows: map<Id, Row>, finding: Id, digest: Digest) {
    exists a :: a in rows && rows[a].finding == finding && rows[a].digest == digest
  }

  function Insert(db: Db, finding: Id, content: Bytes, isInline: bool, who: Id, h: Hash): Db {
    db.(rows := db.rows[Id(db.next) := Row(finding, h(content), |content|, isInline, who)], next := db.next + 1,
        uploaded := db.uploaded[Id(db.next) := content])
  }

  /** Store the content and create a row unless the finding already has that digest. */
  function Attach(db: Db, finding: Id, content: Bytes, isInline: bool, who: Id, h: Hash): (Db, Verdict) {
    var stored := db.(disk := Store(db.disk, finding, content, h));
    if Attached(db.rows, finding, h(content)) then (stored, Duplicate)
    else (Insert(stored, finding, content, isInline, who, h), Created)
  }

  function UploadOne(db: Db, finding: Id, file: File, limit: nat, who: Id, h: Hash): (Db, Verdict) {
    if file.size > limit then (db, TooBig) else
      var content := Content(file.chunks);
      if content.None? then (db, Crashed) else Attach(db, finding, content.value, false, who, h)
  }

  /** The batch stops at the first file whose transfer crashes; earlier files stay. */
  function UploadAll(db: Db, finding: Id, files: seq<File>, limit: nat, who: Id, h: Hash): (Db, seq<Verdict>)
    decreases |files|
  {
    if files == [] then (db, []) else
      var (db', v) := UploadOne(db, finding, files[0], limit, who, h);
      if v == Crashed then (db', [v]) else
        var (db'', vs) := UploadAll(db', finding, files[1..], limit, who, h);
        (db'', [v] + vs)
  }

  function InlineImage(db: Db, finding: Id, size: nat, image: Option<Bytes>, limit: nat, who: Id, h: Hash)
    : (Db, Verdict)
  {
    if size > limit then (db, TooBig)
    else if image.None? then (db, Rejected)
    else Attach(db, finding, image.value, true, who, h)
  }

  function DeleteRow(db: Db, a: Id): Db
    requires a in db.rows
  {
    var row := db.rows[a];
    var rows := db.rows - {a};
    db.(rows := rows, disk := if Attached(rows, row.finding, row.digest) then db.disk
                              else db.disk - {Path(row.finding, Blob(row.digest))})
  }

  function DeleteAttachment(db: Db, finding: Id, a: Id, who: Actor): (Db, Verdict) {
    if a !in db.rows || db.rows[a].finding != finding then (db, NotFound)
    else if !who.superadmin && db.rows[a].uploadedBy != who.id then (db, NotFound)
    else (DeleteRow(db, a), Created)
  }

  predicate CanEdit(db: Db, finding: Id, who: Actor) {
    finding in db.findings && (who.superadmin || who.id in db.findings[finding].researchers)
  }

  function UploadStep(db: Db, finding: Id, files: seq<File>, limit: nat, who: Actor, h: Hash): Db {
    if CanEdit(db, finding, who) then UploadAll(db, finding, files, limit, who.id, h).0 else db
  }

  function ImageStep(db: Db, finding: Id, size: nat, image: Option<Bytes>, limit: nat, who: Actor, h: Hash)
    : (Db, Verdict)
  {
    if CanEdit(db, finding, who) then InlineImage(db, finding, size, image, limit, who.id, h) else (db, NotFound)
  }

  /** The rows cascade and the post-delete signal removes the bucket. */
  function DeleteFinding(db: Db, finding: Id): Db {
    db.(findings := db.findings - {finding},
        rows := map a | a in db.rows && db.rows[a].finding != finding :: db.rows[a],
        disk := map p | p in db.disk && p.finding != finding :: db.disk[p])
  }

  datatype Op =
    | NewFinding
    | Upload(finding: Id, files: seq<File>)
    | Image(finding: Id, size: nat, image: Option<Bytes>)
    | NewWithImage(size: nat, image: Option<Bytes>)
    | Delete(finding: Id, a: Id)
    | Drop(finding: Id)
    | Assign(finding: Id, researchers: set<Id>)

  function NewFindingStep(db: Db, who: Id): Db {
    db.(findings := db.findings[Id(db.next) := Team(who, {who})], next := db.next + 1)
  }

  predicate Owns(db: Db, finding: Id, who: Actor) {
    finding in db.findings && (who.superadmin || who.id == db.findings[finding].reporter)
  }

  function DropStep(db: Db, finding: Id, who: Actor): Db {
    if Owns(db, finding, who) then DeleteFinding(db, finding) else db
  }

  function AssignStep(db: Db, finding: Id, researchers: set<Id>, who: Actor): Db {
    if !Owns(db, finding, who) then db else
      db.(findings := db.findings[finding := db.findings[finding].(researchers := researchers)])
  }

  /** One transaction: a rejected image takes the new finding back. */
  function NewWithImageStep(db: Db, size: nat, image: Option<Bytes>, who: Actor, limit: nat, h: Hash): Db {
    var (db', v) := InlineImage(NewFindingStep(db, who.id), Id(db.next), size, image, limit, who.id, h);
    if v == TooBig || v == Rejected then db else db'
  }

  function Step(db: Db, op: Op, who: Actor, limit: nat, h: Hash): Db {
    match op
    case NewFinding => NewFindingStep(db, who.id)
    case Upload(f, files) => UploadStep(db, f, files, limit, who, h)
    case Image(f, size, image) => ImageStep(db, f, size, image, limit, who, h).0
    case NewWithImage(size, image) => NewWithImageStep(db, size, image, who, limit, h)
    case Delete(f, a) => DeleteAttachment(db, f, a, who).0
    case Drop(f) => DropStep(db, f, who)
    case Assign(f, researchers) => AssignStep(db, f, researchers, who)
  }

  function Run(db: Db, ops: seq<(Op, Actor)>, limit: nat, h: Hash): Db
    decreases |ops|
  {
    if ops == [] then db else Run(Step(db, ops[0].0, ops[0].1, limit, h), ops[1..], limit, h)
  }

  const EMPTY := Db(map[], map[], map[], 0, map[])

  // ----- rows and disk agree ------------------------------------------------------------------

  predicate RowOk(db: Db, a: Id, h: Hash)
    requires a in db.rows
  {
    var row := db.rows[a];
    var p := Path(row.finding, Blob(row.digest));
    && row.finding in db.findings && a in db.uploaded
    && row.digest == h(db.uploaded[a]) && row.size == |db.uploaded[a]|
    && p in db.disk && db.disk[p] == db.uploaded[a]
  }

  /** Every file is a blob that some row refers to; every row's file holds the bytes stored
      when the row was created; no two rows share a file; keys are below the counter. */
  ghost predicate Agree(db: Db, h: Hash) {
    && (forall p :: p in db.disk ==> p.name.Blob? && Attached(db.rows, p.finding, p.name.digest))
    && (forall a :: a in db.rows ==> RowOk(db, a, h) && a.key < db.next)
    && (forall a, b :: a in db.rows && b in db.rows && a != b ==>
          db.rows[a].finding != db.rows[b].finding || db.rows[a].digest != db.rows[b].digest)
    && (forall f :: f in db.findings ==> f.key < db.next)
  }

  /** A new row and its file join rows and files that agree. */
  lemma JoinAgrees(db: Db, key: Id, row: Row, content: Bytes, db': Db, h: Hash)
    requires Agree(db, h) && row.finding in db.findings && !Attached(db.rows, row.finding, row.digest)
    requires key == Id(db.next) && row.digest == h(content) && row.size == |content|
    requires db' == db.(rows := db.rows[key := row], next := db.next + 1, uploaded := db.uploaded[key := content],
                        disk := db.disk[Path(row.finding, Blob(row.digest)) := content])
    ensures Agree(db', h)
  {
    JoinFiles(db, key, row, content, db', h);
    forall a | a in db'.rows ensures RowOk(db', a, h) && a.key < db'.next {
      if a != key { assert RowOk(db, a, h); }
    }
    assert db'.findings == db.findings;
  }

  lemma JoinFiles(db: Db, key: Id, row: Row, content: Bytes, db': Db, h: Hash)
    requires Agree(db, h) && key !in db.rows && db'.rows == db.rows[key := row]
    requires db'.disk == db.disk[Path(row.finding, Blob(row.digest)) := content]
    ensures forall q :: q in db'.disk ==> q.name.Blob? && Attached(db'.rows, q.finding, q.name.digest)
  {
    assert db'.rows[key] == row;
    forall q | q in db'.disk ensures q.name.Blob? && Attached(db'.rows, q.finding, q.name.digest) {
      if q in db.disk { StillAttached(db.rows, db'.rows, q.finding, q.name.digest); }
    }
  }

  lemma InsertAgrees(db: Db, finding: Id, content: Bytes, isInline: bool, who: Id, h: Hash)
    requires Agree(db, h) && finding in db.findings && !Attached(db.rows, finding, h(content))
    ensures var db' := Insert(db.(disk := Store(db.disk, finding, content, h)), finding, content, isInline, who, h);
      Agree(db', h) && |db'.rows| == |db.rows| + 1
  {
    assert Path(finding, Blob(h(content))) !in db.disk && Id(db.next) !in db.rows;
    var db' := Insert(db.(disk := Store(db.disk, finding, content, h)), finding, content, isInline, who, h);
    JoinAgrees(db, Id(db.next), Row(finding, h(content), |content|, isInline, who), content, db', h);
  }

  lemma StillAttached(rows: map<Id, Row>, rows': map<Id, Row>, finding: Id, digest: Digest)
    requires Attached(rows, finding, digest)
    requires forall a :: a in rows && rows[a].finding == finding && rows[a].digest == digest ==>
      a in rows' && rows'[a] == rows[a]
    ensures Attached(rows', finding, digest)
  {}

  /** Attaching keeps agreement; a duplicate changes nothing, not even the disk. */
  lemma AttachAgrees(db: Db, finding: Id, content: Bytes, isInline: bool, who: Id, h: Hash)
    requires Agree(db, h) && finding in db.findings
    ensures var (db', v) := Attach(db, finding, content, isInline, who, h);
      && Agree(db', h) && db'.findings == db.findings
      && (v == Duplicate ==> db' == db)
      && (v == Created ==> |db'.rows| == |db.rows| + 1)
  {
    if Attached(db.rows, finding, h(content)) {
      var a :| a in db.rows && db.rows[a].finding == finding && db.rows[a].digest == h(content);
      assert RowOk(db, a, h);
    } else {
      InsertAgrees(db, finding, content, isInline, who, h);
    }
  }

  lemma UploadOneAgrees(db: Db, finding: Id, file: File, limit: nat, who: Id, h: Hash)
    requires Agree(db, h) && finding in db.findings
    ensures var (db', v) := UploadOne(db, finding, file, limit, who, h);
      && Agree(db', h) && db'.findings == db.findings
      && (v == Created || v == Duplicate || v == TooBig || v == Crashed)
      && (v != Created ==> db' == db) && (v == Created ==> |db'.rows| == |db.rows| + 1)
  {
    var content := Content(file.chunks);
    if file.size <= limit && content.Some? { AttachAgrees(db, finding, content.value, false, who, h); }
  }

  lemma {:induction false} UploadAgrees(db: Db, finding: Id, files: seq<File>, limit: nat, who: Id, h: Hash)
    requires Agree(db, h) && finding in db.findings
    ensures Agree(UploadAll(db, finding, files, limit, who, h).0, h)
    decreases |files|
  {
    if files != [] {
      UploadOneAgrees(db, finding, files[0], limit, who, h);
      UploadAgrees(UploadOne(db, finding, files[0], limit, who, h).0, finding, files[1..], limit, who, h);
    }
  }

  lemma DeleteAgrees(db: Db, a: Id, h: Hash)
    requires Agree(db, h) && a in db.rows
    ensures Agree(DeleteRow(db, a), h)
    ensures Path(db.rows[a].finding, Blob(db.rows[a].digest)) !in DeleteRow(db, a).disk
  {
    var db', row := DeleteRow(db, a), db.rows[a];
    assert !Attached(db'.rows, row.finding, row.digest);
    forall q | q in db'.disk ensures q.name.Blob? && Attached(db'.rows, q.finding, q.name.digest) {
      StillAttached(db.rows, db'.rows, q.finding, q.name.digest);
    }
    forall b | b in db'.rows ensures RowOk(db', b, h) { assert RowOk(db, b, h); }
  }

  lemma DropAgrees(db: Db, finding: Id, h: Hash)
    requires Agree(db, h)
    ensures Agree(DeleteFinding(db, finding), h)
  {
    var db' := DeleteFinding(db, finding);
    forall q | q in db'.disk ensures q.name.Blob? && Attached(db'.rows, q.finding, q.name.digest) {
      StillAttached(db.rows, db'.rows, q.finding, q.name.digest);
    }
    forall b | b in db'.rows ensures RowOk(db', b, h) { assert RowOk(db, b, h); }
  }

  lemma ImageAgrees(db: Db, f: Id, size: nat, image: Option<Bytes>, who: Id, limit: nat, h: Hash)
    requires Agree(db, h) && f in db.findings
    ensures Agree(InlineImage(db, f, size, image, limit, who, h).0, h)
  {
    if size <= limit && image.Some? { AttachAgrees(db, f, image.value, true, who, h); }
  }

  lemma NewWithImageAgrees(db: Db, size: nat, image: Option<Bytes>, who: Actor, limit: nat, h: Hash)
    requires Agree(db, h)
    ensures Agree(NewWithImageStep(db, size, image, who, limit, h), h)
  {
    NewFindingAgrees(db, who.id, h);
    ImageAgrees(NewFindingStep(db, who.id), Id(db.next), size, image, who.id, limit, h);
  }

  lemma StepAgrees(db: Db, op: Op, who: Actor, limit: nat, h: Hash)
    requires Agree(db, h)
    ensures Agree(Step(db, op, who, limit, h), h)
  {
    match op
    case NewFinding => NewFindingAgrees(db, who.id, h);
    case Upload(f, files) => if CanEdit(db, f, who) { UploadAgrees(db, f, files, limit, who.id, h); }
    case Image(f, size, image) => if CanEdit(db, f, who) { ImageAgrees(db, f, size, image, who.id, limit, h); }
    case NewWithImage(size, image) => NewWithImageAgrees(db, size, image, who, limit, h);
    case Delete(f, a) => if DeleteAttachment(db, f, a, who).1 == Created { DeleteAgrees(db, a, h); }
    case Drop(f) => DropAgrees(db, f, h);
    case Assign(f, researchers) => AssignAgrees(db, f, researchers, who, h);
  }

  lemma NewFindingAgrees(db: Db, who: Id, h: Hash)
    requires Agree(db, h)
    ensures Agree(NewFindingStep(db, who), h)
  {}

  lemma AssignAgrees(db: Db, finding: Id, researchers: set<Id>, who: Actor, h: Hash)
    requires Agree(db, h)
    ensures Agree(AssignStep(db, finding, researchers, who), h)
  {
    forall a | a in db.rows ensures RowOk(AssignStep(db, finding, researchers, who), a, h) { assert RowOk(db, a, h); }
  }

  lemma {:induction false} RunAgrees(db: Db, ops: seq<(Op, Actor)>, limit: nat, h: Hash)
    requires Agree(db, h)
    ensures Agree(Run(db, ops, limit, h), h)
    decreases |ops|
  {
    if ops != [] {
      StepAgrees(db, ops[0].0, ops[0].1, limit, h);
      RunAgrees(Step(db, ops[0].0, ops[0].1, limit, h), ops[1..], limit, h);
    }
  }

  /** The file the download view streams for a row; None is a 404. */
  function Download(db: Db, a: Id): Option<Bytes>
    requires a in db.rows
  {
    var p := Path(db.rows[a].finding, Blob(db.rows[a].digest));
    if p in db.disk then Some(db.disk[p]) else None
  }

  /** Through any run and for any digest function: a blob exists at (finding, digest) exactly
      when some row refers to it, every row downloads as the bytes stored when it was created,
      its size is their number, and no temporary file is left. */
  lemma RowsAndDiskAgree(ops: seq<(Op, Actor)>, limit: nat, h: Hash)
    ensures var db := Run(EMPTY, ops, limit, h);
      && (forall f, d :: Path(f, Blob(d)) in db.disk <==> Attached(db.rows, f, d))
      && (forall a :: a in db.rows ==>
            a in db.uploaded && Download(db, a) == Some(db.uploaded[a]) && db.rows[a].size == |db.uploaded[a]|)
      && (forall p :: p in db.disk ==> p.name.Blob?)
  {
    var db := Run(EMPTY, ops, limit, h);
    RunAgrees(EMPTY, ops, limit, h);
    assert forall a :: a in db.rows ==> RowOk(db, a, h);
  }

  /** A row and what was recorded for it never change while the row exists. */
  lemma RecordedForever(db: Db, op: Op, who: Actor, limit: nat, h: Hash, a: Id)
    requires Agree(db, h) && a in db.rows && a in Step(db, op, who, limit, h).rows
    ensures var db' := Step(db, op, who, limit, h);
      db'.rows[a] == db.rows[a] && a in db.uploaded && a in db'.uploaded && db'.uploaded[a] == db.uploaded[a]
  {
    assert RowOk(db, a, h);
    if op.Upload? && CanEdit(db, op.finding, who) { UploadKeepsRows(db, op.finding, op.files, limit, who.id, h, a); }
  }

  lemma {:induction false} UploadKeepsRows(db: Db, finding: Id, files: seq<File>, limit: nat, who: Id, h: Hash, a: Id)
    requires a in db.rows && a in db.uploaded && a.key < db.next
    ensures var db' := UploadAll(db, finding, files, limit, who, h).0;
      a in db'.rows && db'.rows[a] == db.rows[a] && a in db'.uploaded && db'.uploaded[a] == db.uploaded[a]
    decreases |files|
  {
    if files != [] {
      UploadKeepsRows(UploadOne(db, finding, files[0], limit, who, h).0, finding, files[1..], limit, who, h, a);
    }
  }

  lemma {:induction false} FailedChunk(chunks: seq<Option<Bytes>>, i: nat)
    requires i < |chunks| && chunks[i] == None
    ensures Content(chunks) == None
  {
    if i < |chunks| - 1 { FailedChunk(chunks[..|chunks| - 1], i); }
  }

  /** The content of a transfer is its chunks put together in order. */
  lemma {:induction false} ContentConcat(a: seq<Option<Bytes>>, b: seq<Option<Bytes>>, chunk: Option<Bytes>)
    ensures Content([]) == Some([]) && Content([chunk]) == chunk
    ensures Content(a + b) ==
      if Content(a).None? || Content(b).None? then None else Some(Content(a).value + Content(b).value)
  {
    assert [chunk][..0] == [];
    if chunk.Some? { assert [] + chunk.value == chunk.value; }
    if b == [] {
      assert a + b == a;
      if Content(a).Some? { assert Content(a).value + [] == Content(a).value; }
    } else {
      assert (a + b)[|a + b| - 1] == b[|b| - 1] && (a + b)[..|a + b| - 1] == a + b[..|b| - 1];
      var last := b[|b| - 1];
      ContentConcat(a, b[..|b| - 1], chunk);
      if Content(a).Some? && Content(b).Some? {
        var (x, y) := (Content(a).value, Content(b[..|b| - 1]).value);
        assert (x + y) + last.value == x + (y + last.value);
      }
    }
  }

  // ----- counting ------------------------------------------------------------------------------

  function Count(vs: seq<Verdict>, v: Verdict): nat {
    if vs == [] then 0 else (if vs[0] == v then 1 else 0) + Count(vs[1..], v)
  }

  /** Too large files are exactly the ones skipped for their size, and a file is attached
      exactly when its whole content arrived and its digest was new to the finding. */
  lemma UploadOneIff(db: Db, finding: Id, file: File, limit: nat, who: Id, h: Hash)
    requires Agree(db, h) && finding in db.findings
    ensures var (db', v) := UploadOne(db, finding, file, limit, who, h);
      var content := Content(file.chunks);
      && (v == TooBig <==> file.size > limit)
      && (v == Created <==> file.size <= limit && content.Some? && Path(finding, Blob(h(content.value))) !in db.disk)
      && (v == Duplicate <==> file.size <= limit && content.Some? && Path(finding, Blob(h(content.value))) in db.disk)
      && (v != Created ==> db' == db)
  {
    var content := Content(file.chunks);
    if content.Some? {
      assert Path(finding, Blob(h(content.value))) in db.disk <==> Attached(db.rows, finding, h(content.value));
    }
  }

  /** Every file of a batch is reported once, unless a transfer crashed, and the number
      reported as created is the number of new rows. */
  lemma {:induction false} UploadCounts(db: Db, finding: Id, files: seq<File>, limit: nat, who: Id, h: Hash)
    requires Agree(db, h) && finding in db.findings
    ensures var (db', vs) := UploadAll(db, finding, files, limit, who, h);
      && |db'.rows| == |db.rows| + Count(vs, Created)
      && Count(vs, Created) + Count(vs, Duplicate) + Count(vs, TooBig) + Count(vs, Crashed) == |vs| <= |files|
      && (Count(vs, Crashed) == 0 ==> |vs| == |files|)
    decreases |files|
  {
    if files != [] {
      var (db', v) := UploadOne(db, finding, files[0], limit, who, h);
      var (end, vs) := UploadAll(db, finding, files, limit, who, h);
      UploadOneAgrees(db, finding, files[0], limit, who, h);
      if v == Crashed {
        assert vs == [v] && vs[1..] == [];
      } else {
        UploadCounts(db', finding, files[1..], limit, who, h);
        assert vs[1..] == UploadAll(db', finding, files[1..], limit, who, h).1;
      }
    }
  }

  // ----- who may do what -----------------------------------------------------------------------

  /** A row disappears exactly when its uploader or a superadmin deletes it under its own
      finding, or the reporter or a superadmin deletes that finding. */
  lemma RemovedIff(db: Db, op: Op, who: Actor, limit: nat, h: Hash, a: Id)
    requires Agree(db, h) && a in db.rows
    ensures var row := db.rows[a];
      a !in Step(db, op, who, limit, h).rows <==>
        || (op == Delete(row.finding, a) && (who.superadmin || who.id == row.uploadedBy))
        || (op == Drop(row.finding) && (who.superadmin || who.id == db.findings[row.finding].reporter))
  {
    assert RowOk(db, a, h);
    if op.Upload? && CanEdit(db, op.finding, who) {
      UploadKeepsRows(db, op.finding, op.files, limit, who.id, h, a);
    }
  }

  /** Content stored as a new row: under its digest, with its length, for its uploader. */
  ghost predicate AddedRow(db: Db, db': Db, a: Id, finding: Id, content: Bytes, isInline: bool, who: Id, h: Hash) {
    && a in db'.rows && a !in db.rows && a in db'.uploaded && db'.uploaded[a] == content
    && db'.rows[a] == Row(finding, h(content), |content|, isInline, who)
  }

  /** The content of one of the files that is within the limit. */
  ghost predicate Uploaded(files: seq<File>, limit: nat, content: Bytes) {
    exists i :: 0 <= i < |files| && files[i].size <= limit && Content(files[i].chunks) == Some(content)
  }

  lemma {:induction false} UploadAdds(db: Db, finding: Id, files: seq<File>, limit: nat, who: Id, h: Hash, a: Id)
    requires Agree(db, h) && finding in db.findings && a !in db.rows
    ensures var db' := UploadAll(db, finding, files, limit, who, h).0;
      a in db'.rows ==>
        exists content :: Uploaded(files, limit, content) && AddedRow(db, db', a, finding, content, false, who, h)
    decreases |files|
  {
    if files != [] && a in UploadAll(db, finding, files, limit, who, h).0.rows {
      var (one, v) := UploadOne(db, finding, files[0], limit, who, h);
      UploadOneAgrees(db, finding, files[0], limit, who, h);
      var db' := UploadAll(db, finding, files, limit, who, h).0;
      if a in one.rows {
        var content := Content(files[0].chunks).value;
        assert Uploaded(files, limit, content);
        if v != Crashed { UploadKeepsRows(one, finding, files[1..], limit, who, h, a); }
        assert AddedRow(db, db', a, finding, content, false, who, h);
      } else {
        UploadAdds(one, finding, files[1..], limit, who, h, a);
        var content :| Uploaded(files[1..], limit, content) && AddedRow(one, db', a, finding, content, false, who, h);
        UploadedLater(files, limit, content);
        assert AddedRow(db, db', a, finding, content, false, who, h);
      }
    }
  }

  lemma UploadedLater(files: seq<File>, limit: nat, content: Bytes)
    requires files != [] && Uploaded(files[1..], limit, content)
    ensures Uploaded(files, limit, content)
  {
    var i :| 0 <= i < |files[1..]| && files[1..][i].size <= limit && Content(files[1..][i].chunks) == Some(content);
    assert files[i + 1] == files[1..][i];
  }

  /** Where a new row can come from: a file or an image within the limit, sent by somebody who
      may edit the finding, or the image a finding was created with. */
  lemma AddedRows(db: Db, op: Op, who: Actor, limit: nat, h: Hash, a: Id)
    requires Agree(db, h) && a !in db.rows && a in Step(db, op, who, limit, h).rows
    ensures var db' := Step(db, op, who, limit, h);
      match op
      case Upload(f, files) =>
        && f in db.findings && (who.superadmin || who.id in db.findings[f].researchers)
        && exists content :: Uploaded(files, limit, content) && AddedRow(db, db', a, f, content, false, who.id, h)
      case Image(f, size, image) =>
        && f in db.findings && (who.superadmin || who.id in db.findings[f].researchers)
        && size <= limit && image.Some? && AddedRow(db, db', a, f, image.value, true, who.id, h)
      case NewWithImage(size, image) =>
        && size <= limit && image.Some? && Id(db.next) !in db.findings
        && AddedRow(db, db', a, Id(db.next), image.value, true, who.id, h)
      case _ => false
  {
    if op.Upload? { UploadAdds(db, op.finding, op.files, limit, who.id, h, a); }
  }

  lemma {:induction false} UploadKeepsFindings(db: Db, finding: Id, files: seq<File>, limit: nat, who: Id, h: Hash)
    ensures UploadAll(db, finding, files, limit, who, h).0.findings == db.findings
    decreases |files|
  {
    if files != [] {
      UploadKeepsFindings(UploadOne(db, finding, files[0], limit, who, h).0, finding, files[1..], limit, who, h);
    }
  }

  /** How findings come, go and change hands; a rejected image leaves no finding behind. */
  lemma FindingsAfter(db: Db, op: Op, who: Actor, limit: nat, h: Hash)
    ensures var db' := Step(db, op, who, limit, h);
      match op
      case NewFinding => db'.findings == db.findings[Id(db.next) := Team(who.id, {who.id})]
      case NewWithImage(size, image) =>
        if size <= limit && image.Some? then db'.findings == db.findings[Id(db.next) := Team(who.id, {who.id})]
        else db' == db
      case Drop(f) =>
        if f in db.findings && (who.superadmin || who.id == db.findings[f].reporter)
        then db'.findings == db.findings - {f} else db' == db
      case Assign(f, researchers) =>
        if f in db.findings && (who.superadmin || who.id == db.findings[f].reporter)
        then db' == db.(findings := db.findings[f := Team(db.findings[f].reporter, researchers)]) else db' == db
      case _ => db'.findings == db.findings
  {
    if op.Upload? { UploadKeepsFindings(db, op.finding, op.files, limit, who.id, h); }
  }

  /** The verdict on one file, and what the batch leaves of it. */
  ghost predicate FileVerdict(v: Verdict, file: File, rows: map<Id, Row>, finding: Id, limit: nat, h: Hash) {
    if file.size > limit then v == TooBig
    else match Content(file.chunks)
      case None => v == Crashed
      case Some(content) => (v == Created || v == Duplicate) && Attached(rows, finding, h(content))
  }

  lemma FirstVerdict(db: Db, finding: Id, files: seq<File>, limit: nat, who: Id, h: Hash)
    requires Agree(db, h) && finding in db.findings && files != []
    ensures var (db', vs) := UploadAll(db, finding, files, limit, who, h);
      vs != [] && FileVerdict(vs[0], files[0], db'.rows, finding, limit, h)
  {
    var (one, v) := UploadOne(db, finding, files[0], limit, who, h);
    UploadOneAgrees(db, finding, files[0], limit, who, h);
    if v == Created || v == Duplicate {
      var digest := h(Content(files[0].chunks).value);
      if v == Created { assert one.rows[Id(db.next)].digest == digest; }
      StaysAttached(one, finding, files[1..], limit, who, h, digest);
    }
  }

  /** A batch reports its files in turn and stops at the first that crashes. */
  lemma {:induction false} BatchEnds(db: Db, finding: Id, files: seq<File>, limit: nat, who: Id, h: Hash, i: nat)
    ensures var vs := UploadAll(db, finding, files, limit, who, h).1;
      && |vs| <= |files| && (|vs| == |files| || (vs != [] && vs[|vs| - 1] == Crashed))
      && (i + 1 < |vs| ==> vs[i] != Crashed)
    decreases |files|
  {
    if files != [] {
      var (one, v) := UploadOne(db, finding, files[0], limit, who, h);
      if v != Crashed {
        BatchEnds(one, finding, files[1..], limit, who, h, if i > 0 then i - 1 else 0);
        assert UploadAll(db, finding, files, limit, who, h).1 ==
          [v] + UploadAll(one, finding, files[1..], limit, who, h).1;
      }
    }
  }

  /** The verdicts of a batch: too large files are skipped, the batch ends at the first file that
      fits and does not arrive, and the content of every other file is attached in the end. */
  lemma {:induction false} UploadVerdicts(db: Db, finding: Id, files: seq<File>, limit: nat, who: Id, h: Hash, i: nat)
    requires Agree(db, h) && finding in db.findings && i < |UploadAll(db, finding, files, limit, who, h).1|
    ensures var (db', vs) := UploadAll(db, finding, files, limit, who, h);
      i < |files| && FileVerdict(vs[i], files[i], db'.rows, finding, limit, h)
    decreases |files|
  {
    if i == 0 {
      FirstVerdict(db, finding, files, limit, who, h);
    } else {
      UploadOneAgrees(db, finding, files[0], limit, who, h);
      UploadMore(db, finding, files, limit, who, h);
      var one := UploadOne(db, finding, files[0], limit, who, h).0;
      var vs := UploadAll(db, finding, files, limit, who, h).1;
      UploadVerdicts(one, finding, files[1..], limit, who, h, i - 1);
      assert i - 1 < |files[1..]|;
      assert vs[1..][i - 1] == vs[i] && files[1..][i - 1] == files[i];
    }
  }

  lemma UploadMore(db: Db, finding: Id, files: seq<File>, limit: nat, who: Id, h: Hash)
    requires files != [] && |UploadAll(db, finding, files, limit, who, h).1| > 1
    ensures var one := UploadOne(db, finding, files[0], limit, who, h).0;
      var (end, vs) := UploadAll(db, finding, files, limit, who, h);
      UploadAll(one, finding, files[1..], limit, who, h) == (end, vs[1..])
  {}

  lemma StaysAttached(db: Db, finding: Id, files: seq<File>, limit: nat, who: Id, h: Hash, digest: Digest)
    requires Agree(db, h) && Attached(db.rows, finding, digest)
    ensures Attached(UploadAll(db, finding, files, limit, who, h).0.rows, finding, digest)
  {
    var a :| a in db.rows && db.rows[a].finding == finding && db.rows[a].digest == digest;
    assert RowOk(db, a, h);
    UploadKeepsRows(db, finding, files, limit, who, h, a);
  }

  /** The verdict of an inline image, and what it leaves. */
  lemma ImageIff(db: Db, f: Id, size: nat, image: Option<Bytes>, limit: nat, who: Actor, h: Hash)
    requires Agree(db, h)
    ensures var (db', v) := ImageStep(db, f, size, image, limit, who, h);
      && (v == NotFound <==> f !in db.findings || !(who.superadmin || who.id in db.findings[f].researchers))
      && (v == TooBig <==> v != NotFound && size > limit)
      && (v == Rejected <==> v != NotFound && size <= limit && image.None?)
      && (v == Created || v == Duplicate ==> image.Some? && Attached(db'.rows, f, h(image.value)))
      && (v == Created ==> !Attached(db.rows, f, h(image.value)) && |db'.rows| == |db.rows| + 1)
      && (v != Created ==> db' == db) && v != Crashed
  {
    if CanEdit(db, f, who) && size <= limit && image.Some? {
      AttachAgrees(db, f, image.value, true, who.id, h);
      assert Attached(db.rows, f, h(image.value)) || Id(db.next) !in db.rows;
      if !Attached(db.rows, f, h(image.value)) {
        assert ImageStep(db, f, size, image, limit, who, h).0.rows[Id(db.next)].digest == h(image.value);
      }
    }
  }
}
