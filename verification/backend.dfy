/**
 The hosted backend as the upload handler sees it: object storage keyed by
 bucket and path, a `documents` table and a `leads` table. Each call either
 is accepted, and its whole write takes effect, or is rejected and changes
 nothing; which of the two happens is the backend's decision and is passed
 in as `accepted`. A multi-row insert is one request and lands whole or not
 at all.
 */
module Backend {

  import opened Wrappers

  /** A file chosen by the user: its name and its raw bytes. */
  datatype File = File(name: string, bytes: seq<bv8>)

  /** Where an object lives in storage. */
  datatype ObjectKey = ObjectKey(bucket: string, path: string)

  /** A row of the `documents` table. */
  datatype Document = Document(id: string, storagePath: string, owner: Option<string>)

  /** A row of the `leads` table. */
  datatype Lead = Lead(email: string, documentId: string)

  /** Everything the backend holds. */
  datatype Store = Store(objects: map<ObjectKey, File>, documents: seq<Document>, leads: seq<Lead>)

  /** An accepted storage upload: the object at that key is the file. */
  function WithObject(s: Store, key: ObjectKey, file: File): Store
  {
    s.(objects := s.objects[key := file])
  }

  /** An accepted insert into `documents`: the rows are appended. */
  function WithDocuments(s: Store, rows: seq<Document>): Store
  {
    s.(documents := s.documents + rows)
  }

  /** An accepted insert into `leads`: the rows are appended. */
  function WithLeads(s: Store, rows: seq<Lead>): Store
  {
    s.(leads := s.leads + rows)
  }

  /** Every lead names a document that exists. */
  ghost predicate LeadsReferenceDocuments(s: Store)
  {
    forall l | l in s.leads :: exists d | d in s.documents :: d.id == l.documentId
  }

  /** The backend client the page obtains from its provider. */
  class Client {
    var objects: map<ObjectKey, File>
    var documents: seq<Document>
    var leads: seq<Lead>

    /** What the backend holds now. */
    function Snapshot(): Store
      reads this
    {
      Store(objects, documents, leads)
    }

    constructor (initial: Store)
      ensures Snapshot() == initial
    {
      objects := initial.objects;
      documents := initial.documents;
      leads := initial.leads;
    }

    /** `storage.from(bucket).upload(path, file)`; `ok` is false when the backend reports an error. */
    method Upload(bucket: string, path: string, file: File, accepted: bool) returns (ok: bool)
      modifies this
      ensures ok == accepted
      ensures Snapshot() == if accepted then WithObject(old(Snapshot()), ObjectKey(bucket, path), file) else old(Snapshot())
    {
      ok := accepted;
      if accepted {
        objects := objects[ObjectKey(bucket, path) := file];
      }
    }

    /** `from('documents').insert(rows)`. */
    method InsertDocuments(rows: seq<Document>, accepted: bool) returns (ok: bool)
      modifies this
      ensures ok == accepted
      ensures Snapshot() == if accepted then WithDocuments(old(Snapshot()), rows) else old(Snapshot())
    {
      ok := accepted;
      if accepted {
        documents := documents + rows;
      }
    }

    /** `from('leads').insert(rows)`. */
    method InsertLeads(rows: seq<Lead>, accepted: bool) returns (ok: bool)
      modifies this
      ensures ok == accepted
      ensures Snapshot() == if accepted then WithLeads(old(Snapshot()), rows) else old(Snapshot())
    {
      ok := accepted;
      if accepted {
        leads := leads + rows;
      }
    }
  }
}
