/**
 The home page's upload handler and blur toggle.

 `HandleUpload` is the reference definition of one upload, on values: the
 `.csv` gate, the extraction, the "No emails found" error, and the three
 backend writes in order (storage upload, `documents` insert, `leads`
 insert), each of which ends the handler when the backend rejects it, with
 nothing undone. The class `HomePage` runs the same steps against a mutable
 `Client` and is proved to agree with `HandleUpload`; the lemmas after it
 state what exists in the backend after each possible failure.

 The parsed rows, the generated id and the backend's answers are inputs:
 parsing, id generation and the backend's decisions are outside the model.
 */
module Home {

  import opened Wrappers
  import opened EmailPattern
  import opened Extraction
  import opened Backend

  /** The signed-in user, as far as the handler uses it. */
  datatype User = User(id: string)

  /** How one call of the upload handler ends. */
  datatype Outcome =
    | NoCsvFile              // no file, or a name not ending in ".csv": nothing is parsed
    | NoEmailsFound          // the "No emails found" error
    | UploadFailed           // storage rejected the file
    | DocumentInsertFailed   // the `documents` insert was rejected
    | LeadInsertFailed       // the `leads` insert was rejected
    | Navigated(route: string)

  /** The backend's answer to each of the three writes: true is accepted. */
  datatype Answers = Answers(upload: bool, document: bool, leads: bool)

  /** The backend afterwards and how the handler ended. */
  datatype Step = Step(store: Store, outcome: Outcome)

  const Bucket: string := "documents"

  /** `public/${id}.csv`: the id can be read back from the path, between the fixed prefix and suffix. */
  function StoragePath(id: string): (p: string)
    ensures |p| == |id| + 11
    ensures p[..7] == "public/" && p[7..|p| - 4] == id && p[|p| - 4..] == ".csv"
  {
    "public/" + id + ".csv"
  }

  /** `/view/${id}`: the page of the document with that id. */
  function ViewRoute(id: string): (r: string)
    ensures |r| == |id| + 6 && r[..6] == "/view/" && r[6..] == id
  {
    "/view/" + id
  }

  /** JavaScript's `String.prototype.endsWith`, case-sensitive. */
  predicate EndsWith(s: string, suffix: string)
  {
    |suffix| <= |s| && s[|s| - |suffix|..] == suffix
  }

  /** s ends with suffix exactly when s is some string followed by suffix. */
  lemma EndsWithIsSuffix(s: string, suffix: string)
    ensures EndsWith(s, suffix) <==> exists p :: s == p + suffix
  {
    if EndsWith(s, suffix) {
      var p := s[..|s| - |suffix|];
      assert s == p + suffix;
    }
    if exists p :: s == p + suffix {
      var p :| s == p + suffix;
      assert s[|s| - |suffix|..] == suffix;
    }
  }

  /**
   The gate in front of parsing: a file was chosen and its name ends in the
   four characters '.', 'c', 's', 'v' (lower case); the content is not looked at.
   */
  predicate IsCsvFile(file: Option<File>)
  {
    file.Some? && EndsWith(file.value.name, ".csv")
  }

  /** `user?.id`: the user's id when someone is signed in, absent otherwise. */
  function OwnerOf(user: Option<User>): Option<string>
  {
    if user.Some? then Some(user.value.id) else None
  }

  /** The objects passed to the `leads` insert, one per email (their meaning is `LeadRowsCarryEmails`). */
  function LeadRows(emails: seq<string>, id: string): (r: seq<Lead>)
    ensures |r| == |emails|
  {
    seq(|emails|, k requires 0 <= k < |emails| => Lead(emails[k], id))
  }

  /**
   Every lead row names the document, the rows carry exactly the given
   emails, and distinct emails give rows with distinct emails.
   */
  lemma LeadRowsCarryEmails(emails: seq<string>, id: string)
    ensures var r := LeadRows(emails, id);
      && (forall l | l in r :: l.documentId == id)
      && (forall x :: (exists l | l in r :: l.email == x) <==> x in emails)
      && (Distinct(emails) ==> forall i, j | 0 <= i < j < |r| :: r[i].email != r[j].email)
  {
    var r := LeadRows(emails, id);
    assert forall k | 0 <= k < |emails| :: r[k] in r && r[k].email == emails[k];
  }

  /**
   t keeps everything s held: table rows are only appended, and no stored
   object other than the one at key is added, replaced or removed.
   */
  ghost predicate OnlyAdds(s: Store, t: Store, key: ObjectKey)
  {
    && (forall k | k in s.objects && k != key :: k in t.objects && t.objects[k] == s.objects[k])
    && t.objects.Keys <= s.objects.Keys + {key}
    && |s.documents| <= |t.documents| && t.documents[..|s.documents|] == s.documents
    && |s.leads| <= |t.leads| && t.leads[..|s.leads|] == s.leads
  }

  /**
   The three backend writes, each ending the sequence when rejected. Nothing
   is rolled back or deleted; at most one document row is added, and leads
   are added only once that row is in.
   */
  function Persist(s: Store, file: File, id: string, owner: Option<string>, emails: seq<string>, answers: Answers): (r: Step)
    ensures |r.store.documents| <= |s.documents| + 1
    ensures |r.store.leads| > |s.leads| ==> |r.store.documents| == |s.documents| + 1
    ensures r.outcome != NoCsvFile && r.outcome != NoEmailsFound
    ensures r.outcome.Navigated? ==> r.outcome.route == ViewRoute(id)
  {
    if !answers.upload then Step(s, UploadFailed)
    else
      var s1 := WithObject(s, ObjectKey(Bucket, StoragePath(id)), file);
      if !answers.document then Step(s1, DocumentInsertFailed)
      else
        var s2 := WithDocuments(s1, [Document(id, StoragePath(id), owner)]);
        if !answers.leads then Step(s2, LeadInsertFailed)
        else Step(WithLeads(s2, LeadRows(emails, id)), Navigated(ViewRoute(id)))
  }

  /**
   One call of the upload handler, from the chosen file to the end of the
   completion callback. The backend changes only when a `.csv` file with
   some matching cell was chosen (and then only by additions, `HandleUploadOnlyAdds`).
   */
  function HandleUpload(s: Store, file: Option<File>, rows: seq<seq<string>>, id: string, user: Option<User>, answers: Answers): (r: Step)
    ensures r.store != s ==> IsCsvFile(file) && Extracted(rows) != []
    ensures r.outcome.Navigated? ==> r.outcome.route == ViewRoute(id)
  {
    if !IsCsvFile(file) then Step(s, NoCsvFile)
    else
      var emails := Extracted(rows);
      if |emails| == 0 then Step(s, NoEmailsFound)
      else Persist(s, file.value, id, OwnerOf(user), emails, answers)
  }

  /**
   The three writes only add: nothing is rolled back or deleted, and no
   stored object other than the one at the upload's own key is touched.
   */
  lemma PersistOnlyAdds(s: Store, file: File, id: string, owner: Option<string>, emails: seq<string>, answers: Answers)
    ensures OnlyAdds(s, Persist(s, file, id, owner, emails, answers).store, ObjectKey(Bucket, StoragePath(id)))
  {
    var key := ObjectKey(Bucket, StoragePath(id));
    var t := Persist(s, file, id, owner, emails, answers).store;
    assert |s.documents| <= |t.documents| && t.documents[..|s.documents|] == s.documents by {
      assert (s.documents + [Document(id, StoragePath(id), owner)])[..|s.documents|] == s.documents;
    }
    assert t.leads[..|s.leads|] == s.leads by {
      assert (s.leads + LeadRows(emails, id))[..|s.leads|] == s.leads;
    }
  }

  /** A whole upload only adds to the backend, at its own storage key and at the ends of the tables. */
  lemma HandleUploadOnlyAdds(s: Store, file: Option<File>, rows: seq<seq<string>>, id: string, user: Option<User>, answers: Answers)
    ensures OnlyAdds(s, HandleUpload(s, file, rows, id, user, answers).store, ObjectKey(Bucket, StoragePath(id)))
  {
    if IsCsvFile(file) && Extracted(rows) != [] {
      PersistOnlyAdds(s, file.value, id, OwnerOf(user), Extracted(rows), answers);
    } else {
      assert s.documents[..|s.documents|] == s.documents && s.leads[..|s.leads|] == s.leads;
    }
  }

  /** The page: its presentation state, the routes it has pushed, and the backend client it writes through. */
  class HomePage {
    const supabase: Client
    const user: Option<User>
    var loading: bool
    var error: bool
    var blurData: bool
    var history: seq<string>

    constructor (supabase: Client, user: Option<User>)
      ensures this.supabase == supabase && this.user == user
      ensures !loading && !error && !blurData && history == []
    {
      this.supabase := supabase;
      this.user := user;
      loading, error, blurData, history := false, false, false, [];
    }

    /**
     The file-input change handler. `loading` is set first; the `finally`
     clause clears it whenever a `.csv` file was chosen, so it stays set only
     when no `.csv` file was. `error` is never set.
     */
    method HandleFileUpload(file: Option<File>, rows: seq<seq<string>>, id: string, answers: Answers)
      returns (outcome: Outcome)
      modifies this, supabase
      ensures supabase.Snapshot() == HandleUpload(old(supabase.Snapshot()), file, rows, id, user, answers).store
      ensures outcome == HandleUpload(old(supabase.Snapshot()), file, rows, id, user, answers).outcome
      ensures loading == !IsCsvFile(file)
      ensures error == old(error) && blurData == old(blurData)
      ensures history == old(history) + (if outcome.Navigated? then [outcome.route] else [])
    {
      loading := true;
      if !IsCsvFile(file) {
        return NoCsvFile;
      }
      outcome := Complete(file.value, rows, id, answers);
      loading := false;
    }

    /** The parser's completion callback: extraction, then the three writes, then navigation. */
    method Complete(file: File, rows: seq<seq<string>>, id: string, answers: Answers) returns (outcome: Outcome)
      modifies this, supabase
      ensures var r := if Extracted(rows) == [] then Step(old(supabase.Snapshot()), NoEmailsFound)
                       else Persist(old(supabase.Snapshot()), file, id, OwnerOf(user), Extracted(rows), answers);
              supabase.Snapshot() == r.store && outcome == r.outcome
      ensures loading == (if outcome.Navigated? then false else old(loading))
      ensures error == old(error) && blurData == old(blurData)
      ensures history == old(history) + (if outcome.Navigated? then [outcome.route] else [])
    {
      var emails := ExtractEmails(rows);
      if |emails| == 0 {
        return NoEmailsFound;
      }
      var filePath := StoragePath(id);
      var ok := supabase.Upload(Bucket, filePath, file, answers.upload);
      if !ok {
        return UploadFailed;
      }
      ok := supabase.InsertDocuments([Document(id, filePath, OwnerOf(user))], answers.document);
      if !ok {
        return DocumentInsertFailed;
      }
      var emailObjects := LeadRows(emails, id);
      ok := supabase.InsertLeads(emailObjects, answers.leads);
      if !ok {
        return LeadInsertFailed;
      }
      loading := false;
      var route := ViewRoute(id);
      history := history + [route];
      outcome := Navigated(route);
    }

    /** `setBlurData(!blurData)`. */
    method HandleBlurToggle()
      modifies this
      ensures blurData == !old(blurData)
      ensures loading == old(loading) && error == old(error) && history == old(history)
    {
      blurData := !blurData;
    }
  }

  /** Some cell, in some row and column, matches the email pattern. */
  ghost predicate SomeCellMatches(rows: seq<seq<string>>)
  {
    exists r, c | 0 <= r < |rows| && 0 <= c < |rows[r]| :: ContainsEmailLike(rows[r][c])
  }

  /** On success the backend holds exactly the three writes. */
  lemma SuccessStore(s: Store, file: Option<File>, rows: seq<seq<string>>, id: string, user: Option<User>, answers: Answers)
    requires HandleUpload(s, file, rows, id, user, answers).outcome.Navigated?
    ensures file.Some? && HandleUpload(s, file, rows, id, user, answers)
      == Step(Store(s.objects[ObjectKey(Bucket, StoragePath(id)) := file.value],
                    s.documents + [Document(id, StoragePath(id), OwnerOf(user))],
                    s.leads + LeadRows(Extracted(rows), id)),
              Navigated(ViewRoute(id)))
  {
  }

  /** The distinct matching cells are the matching cells that occur in some row. */
  lemma MatchingCellSetHolds(rows: seq<seq<string>>, x: string)
    ensures x in MatchingCellSet(rows) <==> ContainsEmailLike(x) && OccursIn(rows, x)
  {
  }

  /**
   How the handler ends is decided by the first step that fails, in the
   handler's order: the `.csv` gate, the email check, then the three writes.
   Navigation happens exactly when every step succeeds.
   */
  lemma OutcomeIsFirstFailure(s: Store, file: Option<File>, rows: seq<seq<string>>, id: string, user: Option<User>, answers: Answers)
    ensures var o := HandleUpload(s, file, rows, id, user, answers).outcome;
      && (o == NoCsvFile <==> !IsCsvFile(file))
      && (o == NoEmailsFound <==> IsCsvFile(file) && !SomeCellMatches(rows))
      && (o == UploadFailed <==> IsCsvFile(file) && SomeCellMatches(rows) && !answers.upload)
      && (o == DocumentInsertFailed <==> IsCsvFile(file) && SomeCellMatches(rows) && answers.upload && !answers.document)
      && (o == LeadInsertFailed <==>
            IsCsvFile(file) && SomeCellMatches(rows) && answers.upload && answers.document && !answers.leads)
      && (o.Navigated? <==>
            IsCsvFile(file) && SomeCellMatches(rows) && answers.upload && answers.document && answers.leads)
      && (o.Navigated? ==> o.route == "/view/" + id)
    ensures !IsCsvFile(file) ==> HandleUpload(s, file, rows, id, user, answers) == Step(s, NoCsvFile)
  {
    NothingExtractedIffNoMatch(rows);
  }

  /**
   Without a matching cell the handler stops with "No emails found" before
   any backend call: the id and the backend's answers play no part, and the
   store is untouched.
   */
  lemma NoEmailsMeansNoBackendCall(s: Store, file: Option<File>, rows: seq<seq<string>>, user: Option<User>,
                                   id1: string, answers1: Answers, id2: string, answers2: Answers)
    requires IsCsvFile(file) && !SomeCellMatches(rows)
    ensures HandleUpload(s, file, rows, id1, user, answers1) == Step(s, NoEmailsFound)
    ensures HandleUpload(s, file, rows, id1, user, answers1) == HandleUpload(s, file, rows, id2, user, answers2)
  {
    NothingExtractedIffNoMatch(rows);
  }

  /** A rejected storage upload writes no document and no lead. */
  lemma UploadFailureWritesNothing(s: Store, file: Option<File>, rows: seq<seq<string>>, id: string, user: Option<User>, answers: Answers)
    requires HandleUpload(s, file, rows, id, user, answers).outcome == UploadFailed
    ensures HandleUpload(s, file, rows, id, user, answers).store == s
  {
  }

  /**
   A rejected `documents` insert leaves the uploaded file in storage with no
   document row pointing at it, and writes no lead.
   */
  lemma DocumentFailureOrphansFile(s: Store, file: Option<File>, rows: seq<seq<string>>, id: string, user: Option<User>, answers: Answers)
    requires HandleUpload(s, file, rows, id, user, answers).outcome == DocumentInsertFailed
    ensures var t := HandleUpload(s, file, rows, id, user, answers).store;
      && t.objects == s.objects[ObjectKey("documents", "public/" + id + ".csv") := file.value]
      && t.documents == s.documents && t.leads == s.leads
      && ((forall d | d in s.documents :: d.storagePath != "public/" + id + ".csv") ==>
          forall d | d in t.documents :: d.storagePath != "public/" + id + ".csv")
  {
  }

  /**
   A rejected `leads` insert leaves the file and the document row in place,
   and the document has no leads if it had none before.
   */
  lemma LeadFailureLeavesDocumentWithoutLeads(s: Store, file: Option<File>, rows: seq<seq<string>>, id: string, user: Option<User>, answers: Answers)
    requires HandleUpload(s, file, rows, id, user, answers).outcome == LeadInsertFailed
    ensures var t := HandleUpload(s, file, rows, id, user, answers).store;
      && t.objects == s.objects[ObjectKey("documents", "public/" + id + ".csv") := file.value]
      && t.documents == s.documents + [Document(id, "public/" + id + ".csv", OwnerOf(user))]
      && t.leads == s.leads
      && ((forall l | l in s.leads :: l.documentId != id) ==> forall l | l in t.leads :: l.documentId != id)
  {
  }

  /**
   A successful upload stores the file at `documents/public/<id>.csv`, adds
   one document row with that id, that path and the user's id as owner, and
   adds one lead per distinct matching cell, each naming the document; then
   the page navigates to `/view/<id>`.
   */
  lemma SuccessfulUploadWrites(s: Store, file: Option<File>, rows: seq<seq<string>>, id: string, user: Option<User>, answers: Answers)
    requires HandleUpload(s, file, rows, id, user, answers).outcome.Navigated?
    ensures var t := HandleUpload(s, file, rows, id, user, answers);
      && t.outcome.route == "/view/" + id
      && t.store.objects == s.objects[ObjectKey("documents", "public/" + id + ".csv") := file.value]
      && t.store.documents
         == s.documents + [Document(id, "public/" + id + ".csv", if user.Some? then Some(user.value.id) else None)]
      && |t.store.leads| == |s.leads| + |MatchingCellSet(rows)|
      && t.store.leads[..|s.leads|] == s.leads
      && (forall l | l in t.store.leads[|s.leads|..] :: l.documentId == id)
      && (forall x :: (exists l | l in t.store.leads[|s.leads|..] :: l.email == x) <==> x in MatchingCellSet(rows))
      && (forall i, j | |s.leads| <= i < j < |t.store.leads| :: t.store.leads[i].email != t.store.leads[j].email)
  {
    SuccessStore(s, file, rows, id, user, answers);
    var added := LeadRows(Extracted(rows), id);
    var leads := s.leads + added;
    assert leads[..|s.leads|] == s.leads && leads[|s.leads|..] == added;
    LeadsOfExtracted(rows, id);
    forall i, j | |s.leads| <= i < j < |leads| ensures leads[i].email != leads[j].email {
      assert leads[i] == added[i - |s.leads|] && leads[j] == added[j - |s.leads|];
    }
  }

  /** The lead rows of an upload: one per distinct matching cell, each naming the document, no email twice. */
  lemma LeadsOfExtracted(rows: seq<seq<string>>, id: string)
    ensures var added := LeadRows(Extracted(rows), id);
      && |added| == |MatchingCellSet(rows)|
      && (forall l | l in added :: l.documentId == id)
      && (forall x :: (exists l | l in added :: l.email == x) <==> x in MatchingCellSet(rows))
      && (forall i, j | 0 <= i < j < |added| :: added[i].email != added[j].email)
  {
    var emails := Extracted(rows);
    LeadRowsCarryEmails(emails, id);
    ExtractedDistinct(rows);
    ExtractedCountIsDistinctMatches(rows);
    forall x ensures x in emails <==> x in MatchingCellSet(rows) {
      ExtractedExactly(rows, x);
      MatchingCellSetHolds(rows, x);
    }
  }

  /**
   The ordering of the writes keeps every lead pointing at an existing
   document: leads are written only after their document row was accepted.
   */
  lemma LeadsReferenceDocumentsPreserved(s: Store, file: Option<File>, rows: seq<seq<string>>, id: string, user: Option<User>, answers: Answers)
    requires LeadsReferenceDocuments(s)
    ensures LeadsReferenceDocuments(HandleUpload(s, file, rows, id, user, answers).store)
  {
    var t := HandleUpload(s, file, rows, id, user, answers).store;
    forall l | l in t.leads ensures exists d | d in t.documents :: d.id == l.documentId {
      if l in s.leads {
        var d :| d in s.documents && d.id == l.documentId;
        assert d in t.documents;
      } else {
        var doc := Document(id, StoragePath(id), OwnerOf(user));
        assert doc in t.documents;
      }
    }
  }

  /** Different ids give different storage paths, so one upload never overwrites another's file. */
  lemma StoragePathInjective(id1: string, id2: string)
    ensures StoragePath(id1) == StoragePath(id2) ==> id1 == id2
  {
    if StoragePath(id1) == StoragePath(id2) {
      var p1, p2 := StoragePath(id1), StoragePath(id2);
      assert |id1| == |id2|;
      forall k | 0 <= k < |id1| ensures id1[k] == id2[k] {
        assert p1[7 + k] == id1[k];
        assert p2[7 + k] == id2[k];
      }
      assert id1 == id2;
    }
  }

  /**
   The gate accepts a chosen file exactly when its name is some string
   followed by ".csv": the check is on the suffix and is case-sensitive,
   and no file at all is refused.
   */
  lemma CsvGate(base: string, bytes: seq<bv8>, f: File)
    ensures IsCsvFile(Some(File(base + ".csv", bytes)))
    ensures IsCsvFile(Some(f)) ==> exists b :: f.name == b + ".csv"
    ensures !IsCsvFile(Some(File("leads.CSV", bytes)))
    ensures !IsCsvFile(Some(File("leads.csv.txt", bytes)))
    ensures !IsCsvFile(None)
  {
    var name := base + ".csv";
    assert name[|name| - 4..] == ".csv";
    if IsCsvFile(Some(f)) {
      var n := f.name;
      assert n == n[..|n| - 4] + ".csv";
    }
    assert "leads.CSV"[5..] != ".csv" by { assert "leads.CSV"[6] != ".csv"[1]; }
    assert "leads.csv.txt"[9..] != ".csv" by { assert "leads.csv.txt"[10] != ".csv"[1]; }
  }

  /** Both addresses of the worked upload below match the pattern. */
  lemma ExampleCellsMatch()
    ensures ContainsEmailLike("a@b.com") && ContainsEmailLike("x@y.io")
  {
    assert EmailLikeAt("a@b.com", 1, 3);
    assert EmailLikeAt("x@y.io", 1, 3);
  }

  /**
   A worked upload: three cells "a@b.com", "a@b.com" and "x@y.io", all
   writes accepted. One document row, two lead rows naming it, and
   navigation to its page.
   */
  lemma TwoDistinctEmailsGiveTwoLeads(s: Store, file: File, id: string, user: Option<User>)
    requires EndsWith(file.name, ".csv")
    ensures var t := HandleUpload(s, Some(file), [["a@b.com"], ["a@b.com", "x@y.io"]], id, user, Answers(true, true, true));
      && t.outcome == Navigated("/view/" + id)
      && |t.store.documents| == |s.documents| + 1
      && t.store.leads == s.leads + [Lead("a@b.com", id), Lead("x@y.io", id)]
  {
    ExampleCellsMatch();
    DuplicateCellsCollapse("a@b.com", "x@y.io");
    assert LeadRows(["a@b.com", "x@y.io"], id) == [Lead("a@b.com", id), Lead("x@y.io", id)];
  }
}
