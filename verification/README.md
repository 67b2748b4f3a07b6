# knowmore: CSV upload handler

A Dafny model of the upload handler of the knowmore home page
(`handleFileUpload` in `components/Home.tsx`). A user picks a CSV file of
website visitor data. The handler:

1. checks that a file was chosen and that its name ends in `.csv`;
2. tests every cell of every parsed row with the regular expression
   `/\S+@\S+\.\S+/` and adds each matching cell, whole, to a `Set`;
3. stops with the error "No emails found" when the set is empty;
4. uploads the file to bucket `documents` at `public/<id>.csv`;
5. inserts one `documents` row `{id, storage_path, owner}`;
6. inserts one `leads` row `{email, document_id}` per collected email;
7. navigates to `/view/<id>`.

Each backend write ends the handler when the backend rejects it. Nothing
written before is undone.

Modules:

- `Wrappers` (`wrappers.dfy`): the `Option` type.
- `EmailPattern` (`email_pattern.dfy`): JavaScript's `\s` class written out.
  `ContainsEmailLike` is the pattern test, stated through its shortest match.
  `RegexTest` is the literal meaning of an unanchored `test`: some substring
  of the cell is in the pattern's language. A lemma proves the two agree.
- `Extraction` (`extraction.dfy`): the nested loop `ExtractEmails`. It is
  proved equal to the reference definition "flatten the rows, keep the
  matching cells, deduplicate". The JavaScript `Set` keeps first-insertion
  order and ignores repeats, so it is a duplicate-free sequence, and
  `Set.prototype.add` is `SetAdd`. Lemmas give the set view: which cells
  are collected, that none is collected twice, and how many there are.
- `Backend` (`backend.dfy`): the hosted backend. It holds storage objects
  keyed by bucket and path, a `documents` table and a `leads` table.
  `Client` is a mutable class whose three calls each take the backend's
  answer (`accepted`) as a parameter.
- `Home` (`home.dfy`): `HandleUpload`, the whole handler as a function on
  values, and `HomePage`, a class holding the page state (`loading`,
  `error`, `blurData`, the routes pushed to the router). Its
  `HandleFileUpload` and `Complete` methods run the steps against a
  `Client` and are proved to agree with `HandleUpload`. The lemmas state
  what exists in the backend after each possible failure.

The functions that define the model (`SetAdd`, `Extracted`, `LeadRows`,
`Persist`, `HandleUpload`) keep their contracts short; what they mean is
stated in lemmas about them, named in the table below.

These are parameters rather than computations:

- the parsed rows (`seq<seq<string>>`);
- the generated id;
- the signed-in user (`Option<User>`);
- the backend's answer to each write (`Answers`).

Behaviour of the handler that the model keeps as the code has it:

- The handler adds each matching cell's text unchanged, with no
  normalisation: no trimming, no case folding, no cutting down to the
  matched address (`Extraction.WholeCellIsExtracted`).
- The handler never sets `error`. `HandleFileUpload` keeps it unchanged.
- A comment at `components/Home.tsx:27-28` says a column named "email" is
  checked for. No such check exists: every cell of every row is tested
  (`Extraction.ExtractedExactly`).
- When the chosen file is missing or not a `.csv`, `loading` was already
  set at line 24 and is never cleared. For a `.csv` file, the `finally`
  at line 108 clears it on every path.

## Model

| member | source | states |
|---|---|---|
| `EmailPattern.RegexTestIsContainsEmailLike` | components/Home.tsx:38-39 | the shortest-match predicate holds exactly when some substring of the cell is in the language of `\S+@\S+\.\S+`; this is the meaning of `test` without anchors |
| `EmailPattern.ShortestMatchIsRegexMatch` | components/Home.tsx:38-39 | a shortest match ('@' with a non-space before it, a non-space run, '.', a non-space after it) is a substring in the pattern's language |
| `EmailPattern.RegexMatchHasShortestMatch` | components/Home.tsx:38-39 | any substring in the pattern's language contains a shortest match |
| `EmailPattern.MatchSurvivesSurroundingText` | components/Home.tsx:38-39 | the pattern is unanchored: any text before or after a matching cell leaves it matching |
| `EmailPattern.MatchNeedsAtThenDot` | components/Home.tsx:38 | a matching cell has an '@' followed later by a '.', and is at least five characters long |
| `EmailPattern.PermissiveMatches` | components/Home.tsx:38-40 | "a@b.c", "a@..c" and "contact: a@b.c" all match, although the second is not an address and the third holds other text |
| `EmailPattern.Rejections` | components/Home.tsx:38 | "@b.c", "a@.c", "a@b." and "a @b.c" do not match: each of the three runs must be non-empty and free of whitespace |
| `Extraction.ExtractEmails` | components/Home.tsx:35-43 | the nested loop over rows and cells builds exactly `Dedup(Matching(Flatten(rows)))`; the result has no duplicates and holds a string exactly when it is a matching cell of some row and column |
| `Extraction.DedupIsSetOf` | components/Home.tsx:35-40 | adding values one by one to the insertion-ordered set gives each value once and exactly the values added |
| `Extraction.MatchingKeepsMatches` | components/Home.tsx:37-41 | the filter keeps a cell exactly when the pattern accepts it |
| `Extraction.FlattenHoldsEveryCell` | components/Home.tsx:36-37 | the loop visits every cell of every row and nothing else |
| `Extraction.ExtractedExactly` | components/Home.tsx:35-43 | a string is collected exactly when it is a cell, in any row and any column, that the pattern accepts; no header or column is singled out |
| `Extraction.SetAddInserts` | components/Home.tsx:40 | `emails.add(cell)` on the insertion-ordered set: afterwards the cell is present, nothing else is added, the earlier elements keep their places, at most one element is added, and a set without repeats stays without repeats |
| `Extraction.ExtractedDistinct` | components/Home.tsx:35-43 | the set the handler builds (`Extracted`) holds no email twice, and every email in it is a cell the pattern accepts |
| `Extraction.RepeatCollapses` | components/Home.tsx:35-40 | adding a value, the same value again and then a different value leaves the two values once each, in first-insertion order |
| `Extraction.ExtractedCountIsDistinctMatches` | components/Home.tsx:35-43 | the number of collected emails equals the number of distinct matching cells |
| `Extraction.NothingExtractedIffNoMatch` | components/Home.tsx:35-45 | the set is empty exactly when no cell in any row matches |
| `Extraction.WholeCellIsExtracted` | components/Home.tsx:38-40 | a cell holding any text before an address (such as "contact: a@b.c") is collected whole, not cut down to the matched address, and a non-matching cell beside it adds nothing |
| `Extraction.OneMatchingCell` | components/Home.tsx:36-43 | a row holding a non-matching cell and a matching cell yields exactly the matching cell |
| `Extraction.DuplicateCellsCollapse` | components/Home.tsx:35-43 | a matching cell repeated in a later row is collected once, in first-seen order, before a different matching cell |
| `Backend.Client.Upload` | components/Home.tsx:54-55 | an accepted upload puts the file at the bucket and path; a rejected one changes nothing; the result reports which |
| `Backend.Client.InsertDocuments` | components/Home.tsx:65-73 | an accepted insert appends the rows to `documents`; a rejected one changes nothing |
| `Backend.Client.InsertLeads` | components/Home.tsx:90-91 | an accepted insert appends all the rows to `leads` at once; a rejected one changes nothing |
| `Home.StoragePath` | components/Home.tsx:52 | the path is "public/", then the id, then ".csv", and the id can be read back from between them |
| `Home.ViewRoute` | components/Home.tsx:102 | the route is "/view/" followed by the id |
| `Home.EndsWithIsSuffix` | components/Home.tsx:30 | `endsWith` holds exactly when the name is some string followed by the suffix |
| `Home.LeadRowsCarryEmails` | components/Home.tsx:85-89 | every lead object names the document, the objects carry exactly the given emails, and distinct emails give objects with distinct emails |
| `Home.LeadsOfExtracted` | components/Home.tsx:85-89 | the lead objects of an upload are one per distinct matching cell, each naming the document, with no email twice |
| `Home.Persist` | components/Home.tsx:49-102 | the three writes with early returns: at most one document row is added, leads are added only when that row was, the outcome is one of the write failures or navigation, and navigation goes to "/view/" + id |
| `Home.PersistOnlyAdds` | components/Home.tsx:49-99 | the writes only add: no stored object other than the one at `documents/public/<id>.csv` is added, replaced or removed, and table rows are only appended |
| `Home.HandleUpload` | components/Home.tsx:23-111 | the backend changes only when a `.csv` file with some matching cell was chosen; navigation goes to "/view/" + id |
| `Home.HandleUploadOnlyAdds` | components/Home.tsx:23-111 | a whole upload only adds: no stored object other than the one at its own key `documents/public/<id>.csv` is added, replaced or removed, table rows are only appended, and nothing is rolled back |
| `Home.SuccessStore` | components/Home.tsx:49-102 | on success the backend is exactly the old one plus the file at its key, one document row and the lead objects, and the route is "/view/" + id |
| `Home.HomePage.constructor` | components/Home.tsx:17-19 | the page starts with `loading`, `error` and `blurData` all false and nothing pushed to the router |
| `Home.HomePage.HandleFileUpload` | components/Home.tsx:23-111 | the backend afterwards and the outcome are those of `HandleUpload`; `loading` stays true exactly when no `.csv` file was chosen; `error` and `blurData` are unchanged; a route is pushed only on navigation |
| `Home.HomePage.Complete` | components/Home.tsx:33-103 | the completion callback: no emails gives "No emails found" and no backend change; otherwise the three writes run in order with early returns; `loading` is cleared and the route pushed only when all three succeed |
| `Home.HomePage.HandleBlurToggle` | components/Home.tsx:113-115 | `blurData` is negated and nothing else changes |
| `Home.OutcomeIsFirstFailure` | components/Home.tsx:30-102 | the outcome is fixed by the first failing step in order (`.csv` gate, no matching cell and so "No emails found", upload, document insert, leads insert); navigation to "/view/" + id happens exactly when all steps succeed; without a `.csv` file the backend is untouched |
| `Home.NoEmailsMeansNoBackendCall` | components/Home.tsx:45-55 | with no matching cell the handler ends with "No emails found", the store is untouched, and neither the id nor the backend's answers make any difference |
| `Home.UploadFailureWritesNothing` | components/Home.tsx:54-60 | after a rejected storage upload the backend is exactly as before: no document row and no lead rows |
| `Home.DocumentFailureOrphansFile` | components/Home.tsx:64-81 | after a rejected document insert the file stays at `documents/public/<id>.csv` and every other stored object is as before, both tables are unchanged so no leads are written, and when no earlier document row used that path none refers to the file |
| `Home.LeadFailureLeavesDocumentWithoutLeads` | components/Home.tsx:83-99 | after a rejected leads insert the file and the new document row remain, every other stored object is as before, `leads` is unchanged, and when the id was not used by earlier leads no lead refers to the document |
| `Home.SuccessfulUploadWrites` | components/Home.tsx:49-102 | on success: the file is at `documents/public/<id>.csv` and every other stored object is as before; one document row is added with the same id, that path and the user's id as owner (absent without a user); one lead per distinct matching cell is added, each naming the document and no two with the same email; the route is "/view/" + id |
| `Home.LeadsReferenceDocumentsPreserved` | components/Home.tsx:64-99 | because leads are written only after their document row is accepted, every lead still names an existing document |
| `Home.StoragePathInjective` | components/Home.tsx:49-53 | different ids give different storage paths |
| `Home.CsvGate` | components/Home.tsx:30 | a chosen file passes the gate exactly when its name is some string followed by ".csv": any such name passes, every name that passes has that form, and "leads.CSV", "leads.csv.txt" and no file at all do not pass |
| `Home.ExampleCellsMatch` | components/Home.tsx:38 | "a@b.com" and "x@y.io" match the pattern |
| `Home.TwoDistinctEmailsGiveTwoLeads` | components/Home.tsx:35-102 | cells "a@b.com", "a@b.com", "x@y.io" with every write accepted give one document row, the two leads ("a@b.com", id) and ("x@y.io", id), and navigation to "/view/" + id |

## Left out

- `app/api/leap/workflow/route.ts`, the workflow endpoint. It wraps a third-party SDK call with a hardcoded workflow id and payload, ignores its request body, and has no logic of its own.
- CSV parsing by `papaparse` (`components/Home.tsx:32`). This external library is not part of this model. The parsed rows are an input, and every cell is a string.
- The id generator (`components/Home.tsx:49`). It is a source of randomness, so the id is an input. Whether two uploads get the same id is not modelled.
- Backend internals. Why a write is rejected, a clash with an existing object at the same path, and partially written bytes are all outside the model. Each call is accepted whole or rejected with no effect, as the caller's `accepted` flag says.
- Asynchrony. The parser's completion callback runs after the `finally` at line 108, and the "No emails found" throw at line 46 escapes the `try` at line 31. The model runs the callback in line and treats the throw as the outcome `NoEmailsFound`. Either way, `loading` ends false for a `.csv` file. Overlapping uploads started from one page are not modelled.
- `console.error` logging and the error messages it prints.
- Page markup, styling and `LogoCloud` (`components/Home.tsx:117-265`). The router is only the list of routes pushed to it.
- JavaScript strings are UTF-16. A Dafny `char` is a Unicode scalar value, so a lone surrogate cannot be written. Every `\s` character lies in the Basic Multilingual Plane, so the whitespace test is the same for every other string.
