# Billing extractor: a Dafny model of the invoice core

The billing extractor turns photographed invoices into stored records. A
language model reads each image; the service parses the JSON it returns and
stores the invoice. A web page lists the stored invoices. This project models
the core of that system in Dafny and proves properties of the model:

- **Invoice store** (`InvoiceStore`): invoices live in a table with a
  soft-delete column `DeletedAt`. A lookup, the list and a delete see only
  active rows. The unique index on the invoice number covers every row,
  tombstoned or not. An insert also fails when a value does not fit its
  column: the number in 100 characters, the vendor in 200, the total in
  `numeric(18, 2)`. A longer number or vendor is accepted only when the
  excess is spaces, and is then stored clipped to its column.
- **Invoice cache** (`InvoiceCache`): a key/value cache with a one-day TTL.
  It holds three key families: a summary per invoice number, a detail per
  invoice number, and one key for the list of all summaries. A payload is a
  tagged JSON document. The empty string reads as a miss. Reading a
  document of another kind is modelled as a decode failure; a coherent cache
  never holds one (`InvoiceService.CoherentReadsDecode`).
- **Invoice service** (`InvoiceService`): the cache-aside layer over the store
  and the cache. The central result is an invariant, `Coherent`: every cached
  entry equals what the store would produce. The empty cache establishes it
  and every service operation preserves it.
- **Mapping** (`InvoiceMapping`): entity to detail DTO and entity to summary
  DTO. "Last edited" is the update time if there is one, otherwise the
  creation time.
- **Extraction** (`InvoiceExtraction`): cleaning the model's reply, which
  means trimming it and removing a Markdown code fence. Decoding falls back
  to an empty record. The module also covers the MIME type for a file
  extension.
- **Upload endpoint** (`InvoiceUpload`): validation of the uploaded images
  against the allowed types and the size limit, and the four possible
  responses. One image whose model call throws ends the whole request with
  a server error.
- **Bills** (`BillRepository`, `BillService`): CRUD over bills. An update is
  a partial patch. The status is parsed case-insensitively.
- **`Result<T>`** (`ResultModel`).
- **Frontend**:
  - `InvoiceListPage`: the search filter, pagination and page buttons of
    the invoice list.
  - `UploadModal`: the upload dialog's state machine.

Shared helpers live in `Common`: `Option`, ASCII lower-casing and substring
search.

Some things the code calls cannot be seen from it. These enter the model as
parameters:

- clocks (`now`);
- the language model (`generate`), which answers `None` where the call throws;
- the JSON decoder (`decode`);
- the lookup and restore of soft-deleted invoices (a `RestoreGateway`). The
  coherence proof for create assumes the gateway behaves as the predicate
  `InvoiceService.Lawful` states. `InvoiceService.ReferenceGateway` is a
  concrete gateway that is proved lawful.

## Model

| member | source | states |
|---|---|---|
| ResultModel.Success | src/BillingExtractor.Business/Models/Result.cs:7-16 | a success result has no error, so it is not a failure, and it carries the value |
| ResultModel.Failure | src/BillingExtractor.Business/Models/Result.cs:8-17 | a failure result carries its error and no value, and is not a success |
| ResultModel.KindsAreExclusive | src/BillingExtractor.Business/Models/Result.cs:7-8 | every result is exactly one of success and failure; success means the error is absent |
| ResultModel.FactoriesAreDistinct | src/BillingExtractor.Business/Models/Result.cs:10-17 | no success equals a failure; each factory is injective in its argument |
| Common.Lower | src/BillingExtractor.Business/Services/InvoiceExtractionService.cs:72 | lower-casing keeps the length and lower-cases each character on its own |
| Common.LowerIdempotent | src/BillingExtractor.Business/Services/InvoiceExtractionService.cs:72 | lower-casing twice equals lower-casing once |
| InvoiceMapping.LastEdited | src/BillingExtractor.Business/Services/InvoiceService.cs:103 | last-edited is the update time when present, otherwise the creation time |
| InvoiceMapping.MapToDetailDto | src/BillingExtractor.Business/Services/InvoiceService.cs:95-119 | the detail keeps the number and last-edited time; every item and adjustment maps back to the entity's, in order |
| InvoiceMapping.MapToSummaryDto | src/BillingExtractor.Business/Services/InvoiceService.cs:121-131 | the summary is exactly the header part of the detail DTO |
| InvoiceMapping.MapSummaries | src/BillingExtractor.Business/Services/InvoiceService.cs:45 | the list of summaries is position-for-position the summary of each row |
| InvoiceMapping.DetailPreservesContent | src/BillingExtractor.Business/Services/InvoiceService.cs:95-119 | every field of the entity except id and tombstone can be read back from its detail |
| InvoiceMapping.DetailIgnoresIdentityAndTombstone | src/BillingExtractor.Business/Services/InvoiceService.cs:95-131 | the database id and the deletion time never affect either DTO |
| InvoiceStore.FirstActiveIndex | src/BillingExtractor.Data/Repositories/SqlRepositories/InvoiceRepository.cs:15-16 | finds the first active row with the number, and finds none exactly when no active row has it |
| InvoiceStore.GetByInvoiceNumber | src/BillingExtractor.Data/Repositories/SqlRepositories/InvoiceRepository.cs:10-17 | a lookup returns an active row with that number, and nothing exactly when there is no such row |
| InvoiceStore.GetAll | src/BillingExtractor.Data/Repositories/SqlRepositories/InvoiceRepository.cs:19-24 | the list holds exactly the active rows |
| InvoiceStore.GetAllDistributes | src/BillingExtractor.Data/Repositories/SqlRepositories/InvoiceRepository.cs:19-24 | the active-row filter keeps table order |
| InvoiceStore.Create | src/BillingExtractor.Data/Contexts/SqlContexts/SqlContext.cs:17-19 | an insert fails on a value its column cannot hold; otherwise it fails exactly when any row, tombstoned or not, already has the clipped number (the unique index of migration AddUniqueInvoiceNumber); otherwise the row with number and vendor clipped to their columns is appended |
| InvoiceStore.FitsLengthExample | src/BillingExtractor.Data/Contexts/SqlContexts/SqlContext.cs:17-18 | a text over the column's length fits only when the excess is spaces |
| InvoiceStore.Clip | src/BillingExtractor.Data/Contexts/SqlContexts/SqlContext.cs:17-18 | a column keeps a prefix of the text: all of it when it fits the length, otherwise a prefix followed only by spaces |
| InvoiceStore.Stored | src/BillingExtractor.Data/Contexts/SqlContexts/SqlContext.cs:17-18 | the stored row differs from the invoice only in its clipped number and vendor, and not at all when both fit their lengths |
| InvoiceStore.PaddedNumberClashes | src/BillingExtractor.Data/Migrations/20260131095322_AddUniqueInvoiceNumber.cs:17-21 | a 100-character number plus one space is clipped onto an existing row's number and rejected by the unique index |
| InvoiceStore.Delete | src/BillingExtractor.Data/Repositories/SqlRepositories/InvoiceRepository.cs:33-44 | reports false and changes nothing exactly when no active row has the number; otherwise it stamps exactly one such row and deletes nothing physically |
| InvoiceStore.LookupIgnoresOtherNumbers | src/BillingExtractor.Data/Repositories/SqlRepositories/InvoiceRepository.cs:10-17 | changes confined to rows with number n do not alter the lookup of any other number |
| InvoiceStore.LookupPastAppend | src/BillingExtractor.Data/Repositories/SqlRepositories/InvoiceRepository.cs:26-31 | appending an invoice does not change the lookup of other numbers |
| InvoiceStore.CreateThenLookup | src/BillingExtractor.Data/Repositories/SqlRepositories/InvoiceRepository.cs:10-31 | after a successful insert the lookup of its stored number returns the stored row, and other lookups are unchanged |
| InvoiceStore.CreateKeepsUnique | src/BillingExtractor.Data/Migrations/20260131095322_AddUniqueInvoiceNumber.cs:17-21 | a successful insert keeps invoice numbers unique |
| InvoiceStore.DeleteKeepsUnique | src/BillingExtractor.Data/Repositories/SqlRepositories/InvoiceRepository.cs:33-44 | a soft delete keeps invoice numbers unique |
| InvoiceStore.DeleteKeepsOtherLookups | src/BillingExtractor.Data/Repositories/SqlRepositories/InvoiceRepository.cs:33-44 | deleting n leaves the lookup of every other number unchanged |
| InvoiceStore.DeleteHidesRow | src/BillingExtractor.Data/Repositories/SqlRepositories/InvoiceRepository.cs:33-44 | after a delete no active row has the number, so the lookup finds nothing and a second delete reports false |
| InvoiceStore.SoftDeleteExample | src/BillingExtractor.Data/Repositories/SqlRepositories/InvoiceRepository.cs:33-44 | a concrete row: the delete keeps it in the table, stamped, and hides it from the lookup and the list |
| InvoiceCache.KeyFamiliesDisjoint | src/BillingExtractor.Business/Services/InvoiceCacheService.cs:10-12 | summary keys, detail keys and the list key never collide |
| InvoiceCache.KeysInjective | src/BillingExtractor.Business/Services/InvoiceCacheService.cs:10-11 | distinct invoice numbers have distinct summary keys and distinct detail keys |
| InvoiceCache.Read | src/BillingExtractor.Business/Services/InvoiceCacheService.cs:28 | a read finds a payload exactly when the key is present |
| InvoiceCache.Write | src/BillingExtractor.Business/Services/InvoiceCacheService.cs:21-24 | a write stores the payload with the one-day TTL under its key and leaves every other key alone |
| InvoiceCache.GetSummary | src/BillingExtractor.Business/Services/InvoiceCacheService.cs:26-33 | a missing key or the empty string is a miss; a hit is exactly a stored summary document, which it returns |
| InvoiceCache.GetDetail | src/BillingExtractor.Business/Services/InvoiceCacheService.cs:35-42 | a missing key or the empty string is a miss; a hit is exactly a stored detail document, which it returns |
| InvoiceCache.GetAllSummaries | src/BillingExtractor.Business/Services/InvoiceCacheService.cs:44-51 | a missing key or the empty string is a miss; a hit is exactly a stored list document, which it returns |
| InvoiceCache.SetSummary | src/BillingExtractor.Business/Services/InvoiceCacheService.cs:53-57 | the summary reads back; only its key is added, with the one-day TTL |
| InvoiceCache.SetDetail | src/BillingExtractor.Business/Services/InvoiceCacheService.cs:59-63 | the detail reads back; only its key is added, with the one-day TTL |
| InvoiceCache.SetAllSummaries | src/BillingExtractor.Business/Services/InvoiceCacheService.cs:65-69 | the list reads back; only the list key is added, with the one-day TTL |
| InvoiceCache.Delete | src/BillingExtractor.Business/Services/InvoiceCacheService.cs:71-78 | removes exactly the invoice's summary and detail keys and the list key |
| InvoiceCache.InvalidateAllSummaries | src/BillingExtractor.Business/Services/InvoiceCacheService.cs:80-83 | removes exactly the list key |
| InvoiceCache.SetThenGet | src/BillingExtractor.Business/Services/InvoiceCacheService.cs:26-69 | each get after the matching set returns what was set |
| InvoiceCache.EmptyListIsHit | src/BillingExtractor.Business/Services/InvoiceCacheService.cs:44-51 | an empty cached list is a hit, distinct from a missing key |
| InvoiceCache.SetTouchesOneKey | src/BillingExtractor.Business/Services/InvoiceCacheService.cs:53-63 | setting one entry leaves every other entry's reading unchanged |
| InvoiceCache.SetListKeepsEntries | src/BillingExtractor.Business/Services/InvoiceCacheService.cs:65-69 | setting the list leaves every summary and detail unchanged |
| InvoiceCache.DeleteEvicts | src/BillingExtractor.Business/Services/InvoiceCacheService.cs:71-78 | after a delete the invoice's entries and the list miss, and other invoices' entries are unchanged |
| InvoiceCache.InvalidateKeepsEntries | src/BillingExtractor.Business/Services/InvoiceCacheService.cs:80-83 | invalidation makes the list miss and leaves all summaries and details unchanged |
| InvoiceService.IndexOf | src/BillingExtractor.Data/Repositories/SqlRepositories/Interfaces/IInvoiceRepository.cs:11 | locates the first position of a row in the table |
| InvoiceService.FirstDeleted | src/BillingExtractor.Data/Repositories/SqlRepositories/Interfaces/IInvoiceRepository.cs:8 | the reference finder returns a tombstoned row with the number, or none when every row with the number is active |
| InvoiceService.RestoreInPlaceRestores | src/BillingExtractor.Data/Repositories/SqlRepositories/Interfaces/IInvoiceRepository.cs:11 | restoring in place makes the new data the active row for the number and leaves other numbers' lookups alone |
| InvoiceService.ReferenceGatewayIsLawful | src/BillingExtractor.Data/Repositories/SqlRepositories/Interfaces/IInvoiceRepository.cs:8-11 | the reference finder and restore satisfy the gateway assumptions of the coherence proof |
| InvoiceService.GetByInvoiceNumber | src/BillingExtractor.Business/Services/InvoiceService.cs:12-33 | a cached detail is returned as is; on a miss, the store's active row is mapped, cached as detail and summary, and returned; an unknown number returns nothing and changes nothing; every other cache entry keeps its value |
| InvoiceService.GetAll | src/BillingExtractor.Business/Services/InvoiceService.cs:35-50 | a cached list is returned as is; on a miss, the summaries of the active rows are cached and returned, and every other cache entry keeps its value |
| InvoiceService.CacheCreated | src/BillingExtractor.Business/Services/InvoiceService.cs:71-77 | after a create, the invoice's detail and summary are cached, the list is dropped and other invoices' entries are unchanged |
| InvoiceService.Create | src/BillingExtractor.Business/Services/InvoiceService.cs:52-80 | a soft-deleted invoice with the number is restored, otherwise the invoice is inserted; it throws exactly when a value does not fit its column or, on insert, the clipped number is taken; the invoice as passed in is returned and cached, the list is dropped, and every other cache entry keeps its value |
| InvoiceService.Delete | src/BillingExtractor.Business/Services/InvoiceService.cs:82-93 | returns true exactly when an active row existed, and evicts the cache only then: the invoice's summary and detail and the list go, and every other entry keeps its value |
| InvoiceService.EmptyCacheIsCoherent | src/BillingExtractor.Business/Services/InvoiceService.cs:12-50 | an empty cache agrees with any store |
| InvoiceService.GetByInvoiceNumberPreservesCoherence | src/BillingExtractor.Business/Services/InvoiceService.cs:12-33 | a coherent cache stays coherent across a detail read, and the answer is the store's current detail |
| InvoiceService.GetAllPreservesCoherence | src/BillingExtractor.Business/Services/InvoiceService.cs:35-50 | a coherent cache stays coherent across a list read, and the answer is the store's current list |
| InvoiceService.CreatePreservesCoherence | src/BillingExtractor.Business/Services/InvoiceService.cs:52-80 | a create or restore of an active invoice that the table stores unclipped keeps the cache coherent and the numbers unique |
| InvoiceService.DeletePreservesCoherence | src/BillingExtractor.Business/Services/InvoiceService.cs:82-93 | a delete keeps the cache coherent and the numbers unique |
| InvoiceService.DeleteIsVisible | src/BillingExtractor.Business/Services/InvoiceService.cs:82-93 | after a delete, a read of the number finds nothing and the list does not contain it |
| InvoiceService.CoherentReadsDecode | src/BillingExtractor.Business/Services/InvoiceService.cs:12-50 | over a coherent cache no read meets a document of the wrong kind, so both read operations complete |
| Common.TrimStart | src/BillingExtractor.Business/Services/InvoiceExtractionService.cs:49 | drops exactly the leading white space |
| Common.TrimEnd | src/BillingExtractor.Business/Services/InvoiceExtractionService.cs:49 | drops exactly the trailing white space |
| Common.Trim | src/BillingExtractor.Business/Services/InvoiceExtractionService.cs:49 | the result is a slice of the input with no white space at either end |
| Common.TrimIdempotent | src/BillingExtractor.Business/Services/InvoiceExtractionService.cs:49 | trimming twice equals trimming once |
| InvoiceExtraction.Split | src/BillingExtractor.Business/Services/InvoiceExtractionService.cs:52 | a split yields at least one piece and no piece contains the separator |
| InvoiceExtraction.JoinSplit | src/BillingExtractor.Business/Services/InvoiceExtractionService.cs:52-53 | joining the pieces of a split gives back the text |
| InvoiceExtraction.SplitJoin | src/BillingExtractor.Business/Services/InvoiceExtractionService.cs:52-53 | splitting a join of separator-free pieces gives back the pieces |
| InvoiceExtraction.SplitAtFirst | src/BillingExtractor.Business/Services/InvoiceExtractionService.cs:52 | the text before the first separator is the first piece |
| InvoiceExtraction.SplitWithoutSeparator | src/BillingExtractor.Business/Services/InvoiceExtractionService.cs:52 | a text without the separator splits into itself alone |
| InvoiceExtraction.InnerLines | src/BillingExtractor.Business/Services/InvoiceExtractionService.cs:53 | skip one and take n-2 keeps the lines strictly between the first and the last; fewer than two lines give nothing |
| InvoiceExtraction.CleanResponse | src/BillingExtractor.Business/Services/InvoiceExtractionService.cs:49-54 | an unfenced reply is only trimmed; a fenced reply keeps the lines between the fence lines |
| InvoiceExtraction.FenceDropsOuterLines | src/BillingExtractor.Business/Services/InvoiceExtractionService.cs:50-54 | a fenced reply splits back into the fence line, the cleaned body's lines and the closing line |
| InvoiceExtraction.ParseResponse | src/BillingExtractor.Business/Services/InvoiceExtractionService.cs:45-68 | a decoded object is returned; a JSON error or a null yields the empty record |
| InvoiceExtraction.ParseIgnoresPadding | src/BillingExtractor.Business/Services/InvoiceExtractionService.cs:45-62 | white space around the reply does not change the decoded record |
| InvoiceExtraction.ExtractFromImage | src/BillingExtractor.Business/Services/InvoiceExtractionService.cs:32-36 | fails exactly when the model call fails; otherwise the model's reply for the image and MIME type is parsed |
| InvoiceExtraction.GetMimeType | src/BillingExtractor.Business/Services/InvoiceExtractionService.cs:70-79 | .jpg and .jpeg, in any case, mean JPEG; .png means PNG; everything else is octet-stream |
| InvoiceExtraction.MimeTypeIgnoresCase | src/BillingExtractor.Business/Services/InvoiceExtractionService.cs:72 | the extension's case never changes the MIME type |
| InvoiceExtraction.ExtractFromFilePath | src/BillingExtractor.Business/Services/InvoiceExtractionService.cs:38-43 | a file is extracted with the MIME type of its extension, failing exactly when that model call fails |
| InvoiceExtraction.FencedReplyExample | src/BillingExtractor.Business/Services/InvoiceExtractionService.cs:49-54 | a fenced JSON reply is cleaned to its body |
| InvoiceExtraction.BareFenceExample | src/BillingExtractor.Business/Services/InvoiceExtractionService.cs:50-54 | a lone fence line cleans to the empty text |
| Common.TrimStartDropsPrefix | src/BillingExtractor.Business/Services/InvoiceExtractionService.cs:49 | leading white space in front of a non-blank start is removed and nothing more |
| Common.TrimEndDropsSuffix | src/BillingExtractor.Business/Services/InvoiceExtractionService.cs:49 | trailing white space after a non-blank end is removed and nothing more |
| Common.TrimDropsPadding | src/BillingExtractor.Business/Services/InvoiceExtractionService.cs:49 | trimming a body padded with white space on both sides gives back exactly the body |
| InvoiceUpload.TruncDiv | src/BillingExtractor.API/Controllers/InvoiceController.cs:38 | integer division truncating toward zero, as in C# |
| InvoiceUpload.FileErrors | src/BillingExtractor.API/Controllers/InvoiceController.cs:29-40 | a file gets a type error exactly when its type is not allowed and a size error exactly when it is over the limit, type error first |
| InvoiceUpload.ValidationErrors | src/BillingExtractor.API/Controllers/InvoiceController.cs:29-40 | at most two errors per file |
| InvoiceUpload.CollectErrors | src/BillingExtractor.API/Controllers/InvoiceController.cs:28-40 | the loop collects exactly the errors of the files in order |
| InvoiceUpload.NoErrorsIffAllValid | src/BillingExtractor.API/Controllers/InvoiceController.cs:29-45 | there are no errors exactly when every file has an allowed type and is within the limit |
| InvoiceUpload.ExtractAll | src/BillingExtractor.API/Controllers/InvoiceController.cs:47-63 | one result per image in order, or a failure exactly when some image's model call fails |
| InvoiceUpload.ExtractInvoiceInfo | src/BillingExtractor.API/Controllers/InvoiceController.cs:21-66 | no files is its own error; any invalid file rejects the whole request with all errors; a valid upload is a server error exactly when some image's model call fails, and otherwise has one result per file, in order |
| InvoiceUpload.SizeLimitIsInclusive | src/BillingExtractor.API/Controllers/InvoiceController.cs:36 | a file exactly at the limit passes and one byte more fails |
| InvoiceUpload.DefaultSettingsRejectEverything | src/BillingExtractor.API/Configurations/ImageUploadSettings.cs:7-8 | with the default empty allow-list every non-empty upload is rejected; the default limit reads as 10 MiB |
| BillRepository.GetAll | src/BillingExtractor.Data/Repositories/BillRepository.cs:15-18 | returns every bill in order |
| BillRepository.IndexOfId | src/BillingExtractor.Data/Repositories/BillRepository.cs:20-23 | finds the first bill with the id, and none exactly when no bill has it |
| BillRepository.GetById | src/BillingExtractor.Data/Repositories/BillRepository.cs:20-23 | returns a bill with the id, and nothing exactly when there is none |
| BillRepository.NextId | src/BillingExtractor.Data/Repositories/BillRepository.cs:25-30 | a fresh id is positive and larger than every existing id |
| BillRepository.Add | src/BillingExtractor.Data/Repositories/BillRepository.cs:25-30 | appends the bill under a fresh id and changes nothing else about it |
| BillRepository.Update | src/BillingExtractor.Data/Repositories/BillRepository.cs:32-38 | an unknown id is refused; otherwise the stored bill is replaced in place and stamped with the update time |
| BillRepository.Delete | src/BillingExtractor.Data/Repositories/BillRepository.cs:40-48 | an unknown id changes nothing; otherwise exactly one bill with the id is removed |
| BillRepository.GetByStatus | src/BillingExtractor.Data/Repositories/BillRepository.cs:50-53 | returns exactly the bills with the status |
| BillRepository.GetByStatusDistributes | src/BillingExtractor.Data/Repositories/BillRepository.cs:50-53 | the status filter keeps order |
| BillRepository.AddThenGet | src/BillingExtractor.Data/Repositories/BillRepository.cs:20-30 | a bill added to a table with unique ids can be fetched by its new id, and ids stay unique |
| BillRepository.LookupFindsTheRow | src/BillingExtractor.Data/Repositories/BillRepository.cs:20-23 | with unique ids, fetching a row's id returns that row |
| BillRepository.DeleteShifts | src/BillingExtractor.Data/Repositories/BillRepository.cs:40-48 | a delete removes one row and keeps the rest in order |
| BillRepository.DeleteRemovesOnlyThatBill | src/BillingExtractor.Data/Repositories/BillRepository.cs:40-48 | after a delete the id is gone, other ids are unaffected and ids stay unique |
| BillService.ParseStatus | src/BillingExtractor.Business/Services/BillService.cs:83 | parses a status name ignoring surrounding white space and case, and fails exactly when the trimmed text names no status |
| BillService.ParseName | src/BillingExtractor.Business/Services/BillService.cs:64 | the case-insensitive name match: succeeds exactly when the text is some status name in some letter case |
| BillService.ParseStatusName | src/BillingExtractor.Business/Services/BillService.cs:81-105 | every status's name parses back to that status, and so does any text that trims to it in some letter case |
| BillService.NameIsTrimmed | src/BillingExtractor.Business/Services/BillService.cs:101 | a status name has no surrounding white space |
| BillService.ParseStatusIgnoresPadding | src/BillingExtractor.Business/Services/BillService.cs:83 | a status name padded with white space on either side still parses to its status |
| BillService.MapToDto | src/BillingExtractor.Business/Services/BillService.cs:90-105 | the DTO keeps id, amount and due date; its status text is exactly the enum name and parses back to the status |
| BillService.MapToDtoRoundTrip | src/BillingExtractor.Business/Services/BillService.cs:90-105 | the bill can be rebuilt exactly from its DTO |
| BillService.ApplyPatch | src/BillingExtractor.Business/Services/BillService.cs:52-65 | each supplied field replaces the bill's; absent fields and an unparseable status keep the old value; id and timestamps are untouched |
| BillService.PatchLaws | src/BillingExtractor.Business/Services/BillService.cs:52-65 | the empty patch is the identity and applying a patch twice equals applying it once |
| BillService.DueDateNeverCleared | src/BillingExtractor.Business/Services/BillService.cs:61 | a patch can change a due date but never clear it |
| BillService.CreateBill | src/BillingExtractor.Business/Services/BillService.cs:28-44 | appends one bill built from the request with status Pending, creation time now, and an id no existing bill has; returns its DTO |
| BillService.UpdateBill | src/BillingExtractor.Business/Services/BillService.cs:46-69 | an unknown id returns nothing and changes nothing; otherwise the patched, stamped bill replaces the bill with that id in place, is returned, and ids stay unique |
| BillService.DeleteBill | src/BillingExtractor.Business/Services/BillService.cs:71-79 | returns false and changes nothing for an unknown id; otherwise removes the bill |
| BillService.GetBillsByStatus | src/BillingExtractor.Business/Services/BillService.cs:81-88 | an unparseable status gives the empty list; otherwise the DTOs of exactly the bills with the status |
| BillService.GetAllBills | src/BillingExtractor.Business/Services/BillService.cs:16-20 | one DTO per bill, in order, each mapping back to its bill and carrying the exact name of its status |
| BillService.GetBillById | src/BillingExtractor.Business/Services/BillService.cs:22-26 | the DTO of the bill with the id, with the exact name of its status, or nothing exactly when there is none |
| BillService.UpdateChangesOnlySupplied | src/BillingExtractor.Business/Services/BillService.cs:46-69 | each field takes the supplied value or keeps the old one; id and creation time are kept, the update time is now; every other bill is left alone |
| InvoiceListPage.Filter | frontend/src/pages/InvoiceListPage.tsx:23-31 | keeps exactly the invoices whose number or vendor contains the query, ignoring case |
| InvoiceListPage.FilterDistributes | frontend/src/pages/InvoiceListPage.tsx:24-28 | the search keeps list order |
| InvoiceListPage.EmptyQueryKeepsAll | frontend/src/pages/InvoiceListPage.tsx:24-28 | an empty search shows every invoice |
| InvoiceListPage.TotalPages | frontend/src/pages/InvoiceListPage.tsx:62 | the page count is the least number of ten-row pages holding all rows |
| InvoiceListPage.JsSlice | frontend/src/pages/InvoiceListPage.tsx:64 | from a start within the list, the slice runs to the end or to the list's length, whichever comes first; past the end it is empty |
| InvoiceListPage.Visible | frontend/src/pages/InvoiceListPage.tsx:63-64 | on a valid page the rows shown are exactly the filtered rows from (page-1)*10 up to ten further or the end of the list, so at most ten |
| InvoiceListPage.SetQuery | frontend/src/pages/InvoiceListPage.tsx:23-31 | a new search returns to page one; retyping the same text changes nothing |
| InvoiceListPage.SetInvoices | frontend/src/pages/InvoiceListPage.tsx:23-44 | a reload replaces the list and returns to page one |
| InvoiceListPage.PrevPage | frontend/src/pages/InvoiceListPage.tsx:66-68 | moves back one page unless on the first |
| InvoiceListPage.NextPage | frontend/src/pages/InvoiceListPage.tsx:70-72 | moves forward one page unless on the last |
| InvoiceListPage.PageButtons | frontend/src/pages/InvoiceListPage.tsx:199 | the buttons are numbered 1 to the smaller of the page count and three |
| InvoiceListPage.SelectPage | frontend/src/pages/InvoiceListPage.tsx:203 | a button click moves to that page |
| InvoiceListPage.TransitionsKeepValid | frontend/src/pages/InvoiceListPage.tsx:23-72 | every action keeps the current page between one and the last page |
| InvoiceListPage.DisabledMeansNoOp | frontend/src/pages/InvoiceListPage.tsx:194-212 | on a valid page, Previous and Next are disabled exactly when pressing them would change nothing |
| InvoiceListPage.EveryRowOnItsPage | frontend/src/pages/InvoiceListPage.tsx:62-64 | every matching invoice appears at its position on page i/10 + 1, which is a valid page |
| UploadModal.ChangeFiles | frontend/src/components/UploadInvoiceModal.tsx:19-30 | more than ten files only sets the error; otherwise the selection is replaced and error and result are cleared |
| UploadModal.AcceptedImages | frontend/src/components/UploadInvoiceModal.tsx:34-36 | keeps exactly the JPEG and PNG files |
| UploadModal.AcceptedImagesDistributes | frontend/src/components/UploadInvoiceModal.tsx:34-36 | the image filter keeps drop order |
| UploadModal.Drop | frontend/src/components/UploadInvoiceModal.tsx:32-46 | too many images only sets the error; no images changes nothing; otherwise the images become the selection |
| UploadModal.RemoveAt | frontend/src/components/UploadInvoiceModal.tsx:52-54 | removes the file at the index and keeps the others in order; an index out of range changes nothing |
| UploadModal.RemoveAtIsMultisetRemoval | frontend/src/components/UploadInvoiceModal.tsx:52-54 | removal takes out exactly that one file |
| UploadModal.RemoveFile | frontend/src/components/UploadInvoiceModal.tsx:52-54 | removing a file changes only the selection |
| UploadModal.StartSubmit | frontend/src/components/UploadInvoiceModal.tsx:56-61 | with no files nothing is sent; otherwise the selection is sent, the dialog is busy and error and result are cleared |
| UploadModal.FinishSubmit | frontend/src/components/UploadInvoiceModal.tsx:63-73 | the dialog becomes idle; a response is shown and notifies the page exactly when an invoice was saved; a failure shows its message or the default one |
| UploadModal.Close | frontend/src/components/UploadInvoiceModal.tsx:76-80 | the dialog closes exactly when no request is out |
| UploadModal.TransitionsKeepValid | frontend/src/components/UploadInvoiceModal.tsx:19-74 | no action lets the selection exceed ten files |
| UploadModal.SubmitRound | frontend/src/components/UploadInvoiceModal.tsx:56-80 | a whole successful round sends the selection, cannot be closed while busy, and ends idle with the response |
| UploadModal.InitialIsIdle | frontend/src/components/UploadInvoiceModal.tsx:13-16 | the fresh dialog is valid and closable, and submitting from it sends nothing |

## Left out

- The aggregation of several invoices into one report has no code here to model.
- JSON serialisation, the distributed cache client and Entity Framework are not modelled. A payload is a tagged document that round-trips by construction. Reading a document of another kind is modelled as a decode failure, which the service surfaces as a thrown error. System.Text.Json would be more lenient: a detail read as a summary decodes to its header, and a summary read as a detail decodes with no items. Only a list against an object fails. The service never writes one kind under another kind's key, and `InvoiceService.CoherentReadsDecode` shows no read of a coherent cache reaches this case.
- Cache expiry is not modelled: the one-day TTL is recorded on every write but never fires.
- Concurrency is not modelled. The parallel cache writes in `CreateAsync` touch disjoint keys and are modelled as sequential. Races between requests are out of scope.
- The repository's lookup of soft-deleted invoices (`GetDeletedByInvoiceNumberAsync`) and `RestoreAsync` are declared by `IInvoiceRepository`, but `SqlRepositories/InvoiceRepository.cs` implements neither. They are parameters. `InvoiceService.CreatePreservesCoherence` assumes they satisfy `Lawful`. `InvoiceService.Create` takes the restore to save the new data's number, vendor and total, so that it fails on the same column checks as an insert, and on nothing else.
- BillRepository.Add and BillRepository.Update: never fail on a value the bills table cannot hold. The column limits of the bills table (`BillingDbContext`: vendor 200, number 100, description 1000 characters, amount `numeric(18, 2)`) are not modelled, because that context's database provider is not part of this model.
- InvoiceService.CreatePreservesCoherence: requires the invoice being created to be active (no `DeletedAt`), as every caller supplies it.
- InvoiceService.CreatePreservesCoherence: also requires the table to keep the invoice as given (`InvoiceStore.Stored(inv) == inv`). The database clips a number or vendor that runs past its column with spaces only, but `CreateAsync` caches the entity it passed in. For such an invoice the cache holds the padded number, and the row holds the clipped one, so the program itself breaks coherence there.
- InvoiceStore.Create: the clipping of a space-padded number or vendor is modelled, but the restore gateway is not made to clip: `InvoiceService.Create` on the restore path returns what the gateway returns.
- The SQL list order is taken to be table order.
- Database ids come from an identity column. `BillRepository.NextId` only guarantees freshness.
- GeminiService, the extraction prompt text and the HTTP call to the language model are not modelled. The reply is a parameter that may be `None`, which stands for any exception of the call: a failed request, or an empty candidate list that `Candidates?[0]` indexes.
- The controllers other than the upload endpoint (`BaseController`, `BillsController`), program start-up and dependency injection are not modelled.
- The legacy in-memory invoice repository is not modelled.
- The invoice detail dialog is not modelled.
- The file system is not modelled. `ExtractFromFilePath` takes the file's bytes and its extension; `Path.GetExtension` is not modelled.
- Rendering is not modelled: dates, currency, file sizes and markup.
- BillService.ParseStatus: models `Enum.TryParse` on member names, with surrounding white space and letter case ignored. Numeric strings and comma-separated flag lists, which .NET also accepts, are not modelled.
- Common.Lower: lower-cases ASCII letters only. Culture-aware and full-Unicode case mapping are not modelled.
- Common.Trim: recognises ASCII white space plus U+0085 and U+00A0, not every Unicode white-space character.
- ResultModel.Failure: takes a non-null error string. `Failure(null)` in C# would build a value that reports success; that case is not modelled.
- Decimal amounts are modelled as exact reals, and storage rounding is not modelled. The database columns for invoice totals and bill amounts hold two decimals, so the database rounds an amount on write. The model's store keeps it exactly as given. The service returns and caches the in-memory entity it wrote. For an amount with more than two decimals, the cached detail and summary would therefore differ from what a later read of the row returns. The same holds for the DTOs returned by `BillService.CreateBill` and `BillService.UpdateBill`.
- InvoiceService.CreatePreservesCoherence: matches the database only for amounts with at most two decimals. For other amounts the rounding on write breaks coherence, which the model does not see.
- InvoiceExtraction.CleanResponse: tests for the fence with an ordinal prefix match. C#'s `StartsWith(string)` is culture-sensitive: under ICU an ignorable character that trimming keeps, such as U+00AD or U+200B, may precede the fence and still match. For such a reply the source strips the fence and the model does not.
- The `Invoice` entity class in the code lacks the `Adjustments` and `DeletedAt` members that the later migrations add. The model follows the migrations and the repository, which use both.
- The upload dialog expects a response with `savedInvoices` and `duplicateInvoiceNumbers`. The API client declares, and the endpoint returns, a response with `results`. The dialog is modelled against the response shape it reads.
- Invoice item DTOs copy the unit as given; its nullability differences between entity and DTO are not modelled.
