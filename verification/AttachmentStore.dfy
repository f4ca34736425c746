/** The attachment storage and views as they work on files and rows in place; each is proved
    to take exactly the step that module Attachments specifies. */
module AttachmentStore {
  import opened Wrappers
  import opened AuditLog
  import opened Attachments

  class Store {
    const h: Hash
    const limit: nat
    var findings: map<Id, Team>
    var rows: map<Id, Row>
    var disk: map<Path, Bytes>
    var next: nat
    ghost var uploaded: map<Id, Bytes>

    ghost function State(): Db
      reads this
    {
      Db(findings, rows, disk, next, uploaded)
    }

    /** Between requests rows and disk agree. */
    ghost predicate Valid()
      reads this
    {
      Agree(State(), h)
    }

    constructor (h: Hash, limit: nat)
      ensures Valid() && State() == EMPTY && this.h == h && this.limit == limit
    {
      this.h, this.limit := h, limit;
      findings, rows, disk, next, uploaded := map[], map[], map[], 0, map[];
    }

    ghost predicate NoTemps()
      reads this
    {
      forall p :: p in disk ==> p.name.Blob?
    }

    /** Streams the chunks to a temporary file while hashing, then renames it to its digest.
        A failing chunk removes the temporary file and returns None. */
    method HashAndStore(finding: Id, file: File) returns (r: Option<(Digest, nat)>)
      requires NoTemps()
      modifies this`disk
      ensures NoTemps()
      ensures match Content(file.chunks)
        case None => r == None && disk == old(disk)
        case Some(content) =>
          r == Some((h(content), |content|)) && disk == Attachments.Store(old(disk), finding, content, h)
    {
      var tmp := Path(finding, Temp(file.name));
      var hashed: Bytes, written := [], 0;
      disk := disk[tmp := []];
      for i := 0 to |file.chunks|
        invariant Content(file.chunks[..i]) == Some(hashed) && written == |hashed|
        invariant disk == old(disk)[tmp := hashed]
      {
        assert file.chunks[..i + 1][..i] == file.chunks[..i];
        if file.chunks[i].None? {
          disk := disk - {tmp};
          assert disk == old(disk);
          FailedChunk(file.chunks, i);
          return None;
        }
        var chunk := file.chunks[i].value;
        hashed := hashed + chunk;
        disk := disk[tmp := disk[tmp] + chunk];
        written := written + |chunk|;
      }
      assert file.chunks[..|file.chunks|] == file.chunks;
      var digest := h(hashed);
      var final := Path(finding, Blob(digest));
      if final in disk {
        disk := disk - {tmp};
      } else {
        disk := (disk - {tmp})[final := disk[tmp]];
      }
      assert disk == Attachments.Store(old(disk), finding, hashed, h);
      r := Some((digest, written));
    }

    method StoreBytes(finding: Id, data: Bytes) returns (digest: Digest, size: nat)
      modifies this`disk
      ensures disk == Attachments.Store(old(disk), finding, data, h) && digest == h(data) && size == |data|
    {
      digest := h(data);
      var final := Path(finding, Blob(digest));
      if final !in disk {
        disk := disk[final := data];
      }
      size := |data|;
    }

    method DeleteBlob(finding: Id, digest: Digest)
      modifies this`disk
      ensures disk == old(disk) - {Path(finding, Blob(digest))}
      ensures forall p :: p in disk <==> p in old(disk) && p != Path(finding, Blob(digest))
      ensures forall p :: p in disk ==> disk[p] == old(disk)[p]
    {
      disk := disk - {Path(finding, Blob(digest))};
    }

    method PurgeFindingBucket(finding: Id)
      modifies this`disk
      ensures disk == map p | p in old(disk) && p.finding != finding :: old(disk)[p]
      ensures forall p :: p in disk <==> p in old(disk) && p.finding != finding
      ensures forall p :: p in disk ==> disk[p] == old(disk)[p]
    {
      disk := map p | p in disk && p.finding != finding :: disk[p];
    }

    /** Attachment.objects.create(...). */
    method CreateRow(finding: Id, digest: Digest, size: nat, isInline: bool, who: Id, ghost content: Bytes)
      requires digest == h(content) && size == |content|
      modifies this`rows, this`next, this`uploaded
      ensures State() == Insert(old(State()), finding, content, isInline, who, h)
    {
      rows := rows[Id(next) := Row(finding, digest, size, isInline, who)];
      uploaded := uploaded[Id(next) := content];
      next := next + 1;
    }

    /** The upload view: too large files are skipped, known digests are not attached twice,
        and a crashing transfer ends the batch. */
    method Upload(finding: Id, files: seq<File>, user: Actor)
      returns (found: bool, created: nat, skippedDupe: nat, tooBig: seq<string>, ghost verdicts: seq<Verdict>)
      requires Valid()
      modifies this
      ensures Valid()
      ensures found <==>
        finding in old(findings) && (user.superadmin || user.id in old(findings)[finding].researchers)
      ensures if found then (State(), verdicts) == UploadAll(old(State()), finding, files, limit, user.id, h)
              else State() == old(State()) && verdicts == []
      ensures State() == UploadStep(old(State()), finding, files, limit, user, h)
      ensures created == Count(verdicts, Created) && skippedDupe == Count(verdicts, Duplicate) &&
        |tooBig| == Count(verdicts, TooBig)
    {
      created, skippedDupe, tooBig, verdicts := 0, 0, [], [];
      found := finding in findings && (user.superadmin || user.id in findings[finding].researchers);
      if !found {
        return;
      }
      var who := user.id;
      UploadAgrees(State(), finding, files, limit, who, h);
      ghost var whole := UploadAll(State(), finding, files, limit, who, h);
      assert files[0..] == files && verdicts + whole.1 == whole.1;
      for i := 0 to |files|
        invariant NoTemps()
        invariant var (db, vs) := UploadAll(State(), finding, files[i..], limit, who, h);
          (db, verdicts + vs) == whole
        invariant created == Count(verdicts, Created) && skippedDupe == Count(verdicts, Duplicate) &&
          |tooBig| == Count(verdicts, TooBig)
      {
        ghost var v := UploadOne(State(), finding, files[i], limit, who, h).1;
        assert files[i..][1..] == files[i + 1..];
        UploadFirst(State(), finding, files[i..], limit, who, h, verdicts);
        CountSnoc(verdicts, v);
        verdicts := verdicts + [v];
        var file := files[i];
        if file.size > limit {
          tooBig := tooBig + [file.name];
        } else {
          var stored := HashAndStore(finding, file);
          if stored == None {
            return;
          }
          var (digest, size) := stored.value;
          if Attached(rows, finding, digest) {
            skippedDupe := skippedDupe + 1;
          } else {
            CreateRow(finding, digest, size, false, who, Content(file.chunks).value);
            created := created + 1;
          }
        }
      }
      assert files[|files|..] == [] && verdicts + [] == verdicts;
    }

    method AttachInlineImage(finding: Id, size: nat, image: Option<Bytes>, who: Id) returns (v: Verdict)
      requires Valid()
      modifies this
      ensures finding in old(findings) ==> Valid()
      ensures (State(), v) == InlineImage(old(State()), finding, size, image, limit, who, h)
    {
      if finding in findings { ImageAgrees(State(), finding, size, image, who, limit, h); }
      if size > limit {
        return TooBig;
      }
      if image.None? {
        return Rejected;
      }
      var digest, written := StoreBytes(finding, image.value);
      if Attached(rows, finding, digest) {
        v := Duplicate;
      } else {
        CreateRow(finding, digest, written, true, who, image.value);
        v := Created;
      }
    }

    /** The view that pastes an image into a finding. */
    method UploadImage(finding: Id, size: nat, image: Option<Bytes>, who: Actor) returns (v: Verdict)
      requires Valid()
      modifies this
      ensures Valid()
      ensures (State(), v) == ImageStep(old(State()), finding, size, image, limit, who, h)
    {
      if finding !in findings || !(who.superadmin || who.id in findings[finding].researchers) {
        return NotFound;
      }
      v := AttachInlineImage(finding, size, image, who.id);
    }

    /** Finding.save() of a new finding: its reporter is its first researcher. */
    method CreateFinding(who: Id) returns (id: Id)
      requires Valid()
      modifies this
      ensures Valid() && id == Id(old(next)) && State() == NewFindingStep(old(State()), who)
    {
      NewFindingAgrees(State(), who, h);
      id := Id(next);
      findings := findings[id := Team(who, {who})];
      next := next + 1;
    }

    /** The view for an image pasted into a finding that is not saved yet: one transaction, rolled
        back when the image is refused. */
    method NewFindingUploadImage(size: nat, image: Option<Bytes>, who: Actor) returns (v: Verdict)
      requires Valid()
      modifies this
      ensures Valid()
      ensures State() == NewWithImageStep(old(State()), size, image, who, limit, h)
      ensures v == TooBig || v == Rejected <==> size > limit || image.None?
    {
      var (findings0, rows0, next0) := (findings, rows, next);
      ghost var uploaded0 := uploaded;
      var id := CreateFinding(who.id);
      v := AttachInlineImage(id, size, image, who.id);
      if v == TooBig || v == Rejected {
        findings, rows, next, uploaded := findings0, rows0, next0, uploaded0;
      }
    }

    method DeleteAttachment(finding: Id, a: Id, who: Actor) returns (v: Verdict)
      requires Valid()
      modifies this
      ensures Valid()
      ensures (State(), v) == Attachments.DeleteAttachment(old(State()), finding, a, who)
    {
      if a !in rows || rows[a].finding != finding || !(who.superadmin || rows[a].uploadedBy == who.id) {
        return NotFound;
      }
      DeleteAgrees(State(), a, h);
      var digest := rows[a].digest;
      rows := rows - {a};
      if !Attached(rows, finding, digest) {
        DeleteBlob(finding, digest);
      }
      v := Created;
    }

    /** The delete view of a finding. */
    method FindingDelete(finding: Id, who: Actor) returns (found: bool)
      requires Valid()
      modifies this
      ensures Valid() && State() == DropStep(old(State()), finding, who)
    {
      found := finding in findings && (who.superadmin || who.id == findings[finding].reporter);
      if found {
        DeleteFinding(finding);
      }
    }

    /** finding.delete(): the rows cascade, then the post-delete signal purges the bucket. */
    method DeleteFinding(finding: Id)
      requires Valid()
      modifies this
      ensures Valid()
      ensures State() == Attachments.DeleteFinding(old(State()), finding)
    {
      DropAgrees(State(), finding, h);
      rows := map a | a in rows && rows[a].finding != finding :: rows[a];
      findings := findings - {finding};
      PurgeFindingBucket(finding);
    }
  }

  lemma UploadFirst(db: Db, finding: Id, files: seq<File>, limit: nat, who: Id, h: Hash, before: seq<Verdict>)
    requires files != []
    ensures var (db', v) := UploadOne(db, finding, files[0], limit, who, h);
      var (end, vs) := UploadAll(db, finding, files, limit, who, h);
      if v == Crashed then end == db' && before + vs == before + [v]
      else var (end', vs') := UploadAll(db', finding, files[1..], limit, who, h);
        end == end' && before + vs == (before + [v]) + vs'
  {
  }

  lemma {:induction false} CountSnoc(vs: seq<Verdict>, v: Verdict)
    ensures forall w :: Count(vs + [v], w) == Count(vs, w) + (if v == w then 1 else 0)
  {
    if vs == [] {
      assert [] + [v] == [v] && [v][1..] == [];
    } else {
      assert (vs + [v])[1..] == vs[1..] + [v];
      CountSnoc(vs[1..], v);
    }
  }
}
