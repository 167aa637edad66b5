# SITEC field-service app: a Dafny model of its core

SITEC is a single-page application for a small security-systems installer: it
keeps clients, technicians, quotes and service reports in one application state,
persists that state in the browser, and can copy clients and quotes to a cloud
database and back. This project models the logic behind those screens as pure
functions from one `AppState` to the next and proves what each step promises.

- `Domain` holds the records: `Client`, `Technician`, `Quote` with its
  `QuoteItem`s and its `Status` (Draft, Sent, Approved, Rejected), `Visit`,
  `ExecutionReport`, `SyncConfig` and `AppState`. Money is `real`; the
  optional contact person and the optional sync settings are `Option`s.
- `QuoteLifecycle` is the quote state machine: the status selector, the approve
  button with its replace-the-approved-quote confirmation, and delete. Its
  invariant is "at most one Approved quote per client". Approve keeps it when
  quote ids are unique; delete keeps it for any ids. The status selector can break
  it. Ids can collide, and then approve and delete reach the wrong quotes.
- `Totals` and `QuoteBuilder` are the quote form: marking service types, adding
  and removing item lines, the live preview, and saving. Saving computes the
  totals once, with IVA (value-added tax) at 19%.
- `Clients`, `Technicians` and `Reports` are the create, edit and delete screens,
  plus the text summary a report is printed with.
- `Storage` covers local persistence and the cloud payloads: the initial state,
  loading with its fallbacks, when a save starts a push, the push sequence, the
  field renaming both ways, and the fetch behind a pull.
- `Settings` covers backup import, the pull merge, saving the sync settings and
  reset.
- `Wrappers`, `Seqs` and `Text` are generic helpers: `Option`/`Result`, filter,
  map, find and pairwise predicates on sequences, and decimal digits.

Things the browser supplies are parameters:
- A confirmation dialog is a `bool` answer.
- `Date.now()` is a `nat`, and today's ISO date is a `string`. Client and quote
  line ids are its decimal text; technician and report ids keep only its last four
  digits, so they repeat every ten seconds (`Technicians.TechnicianIdsRepeat`,
  `Reports.ReportIdsRepeat`).
- The stored document's text is an `Option<string>`.
- `JSON.stringify` and `JSON.parse` are function parameters. The parse function
  returns `None` for text that does not parse.
- Each network request is an input outcome: it threw, or it was answered with a
  status and a body.

Behaviour of the code that the model keeps as it is:

- A push posts the client rows and then the quote rows in one `try`. A client POST
  that throws skips the quote POST and the `lastSync` write-back. A POST answered
  with an error status does not throw, so `lastSync` still advances.
- A fetch returns both collections or fails. It never returns only some of them.
  The pull merge still handles absent collections, as its type allows.
- The pull handler itself checks only the address and the key, not the `enabled`
  flag. The screen renders the pull button only while sync is enabled
  (components/SettingsModule.tsx:98) and disables it while a pull is running
  (:101); the model takes the handler as it is, with the in-progress flag as an
  input.
- Import accepts any document that parses. It does not check that the document
  has the application state's shape.
- Quote ids `COT-<count + 101>` are not unique once a quote has been deleted
  (`QuoteBuilder.CreateDeleteCreateDuplicatesId`). Approve and delete select by id.
  Approve keeps the approval invariant only under unique ids
  (`QuoteLifecycle.ApproveWithDuplicateIdBreaksInvariant`). Delete keeps it for
  any ids (`QuoteLifecycle.DeletePreservesInvariant`), but under a duplicate id
  another row's delete button removes an Approved quote, whose own row hides that
  button (`QuoteLifecycle.DeleteWithDuplicateIdRemovesApproved`).
- The status selector offers Approved without the replacement check
  (`QuoteLifecycle.SelectorApprovalBreaksInvariant`). The one-approved-per-client
  rule is enforced only by the approve button.
- Service types are kept as a sequence in marking order. Toggling never marks a
  type twice (`QuoteBuilder.ToggleKeepsMarksDistinct`).

## Model

| member | source | states |
|---|---|---|
| QuoteLifecycle.QuoteIdInjective | components/QuotesModule.tsx:94 | two quote counters give the same `COT-` id exactly when they are equal |
| QuoteLifecycle.UpdateQuoteStatus | components/QuotesModule.tsx:26-29 | every quote with the id takes the new status, every other quote keeps its status, no other field or collection changes, and the list keeps its length |
| QuoteLifecycle.UpdateToNonApprovedPreservesInvariant | components/QuotesModule.tsx:26-29 | setting any status other than Approved keeps "at most one Approved quote per client", even with duplicate ids |
| QuoteLifecycle.ExistingApproved | components/QuotesModule.tsx:33 | returns the first quote in list order that is another Approved quote of the same client, and none exactly when no quote in the list is such a rival |
| QuoteLifecycle.ApproveQuote | components/QuotesModule.tsx:31-52 | with no rival the quote's id becomes Approved; with a rival, refusal changes nothing, and acceptance makes the rival's id Sent and the quote's id Approved; quotes with other ids are untouched and only statuses change |
| QuoteLifecycle.ApprovePreservesInvariant | components/QuotesModule.tsx:31-52 | approving a listed quote keeps the ids unique and keeps at most one Approved quote per client, whatever the user answers |
| QuoteLifecycle.DeleteQuote | components/QuotesModule.tsx:54-58 | on confirmation exactly the quotes with other ids remain and the list does not grow; refusal, or an id no quote carries, changes nothing; no other collection changes |
| QuoteLifecycle.DeleteQuoteKeepsOrder | components/QuotesModule.tsx:56 | deleting the only quote with an id leaves the others in their order |
| QuoteLifecycle.DeleteQuoteSplits | components/QuotesModule.tsx:56 | deleting from a list split in two is deleting from each part and joining the results; with the one-quote case this fixes the result for repeated ids too: every quote with the id goes and the others stay in order and multiplicity |
| QuoteLifecycle.DeleteQuoteOfOne | components/QuotesModule.tsx:56 | a one-quote list loses its quote exactly when it carries the id |
| QuoteLifecycle.DeletePreservesInvariant | components/QuotesModule.tsx:54-58 | deleting keeps the approval invariant and keeps ids unique |
| QuoteLifecycle.ChangeStatusFromRow | components/QuotesModule.tsx:176-186 | an Approved row changes nothing; on any other row every quote with the row's id takes the chosen status, Approved included, with no check for another Approved quote of the client; every other quote, field and collection is unchanged |
| QuoteLifecycle.DeleteFromRow | components/QuotesModule.tsx:204-208 | an Approved row, a refused confirmation, or a row whose id no listed quote carries, changes nothing; a confirmed delete on any other row leaves exactly the quotes with another id; no other collection changes |
| QuoteLifecycle.DeleteFromRowSplits | components/QuotesModule.tsx:204-208 | a row's delete acts on each part of a split list and joins the results, so repeated ids are all removed and the rest keep order and multiplicity |
| QuoteLifecycle.DeleteFromRowKeepsApproved | components/QuotesModule.tsx:204-208 | with unique ids, no row's delete button removes an Approved quote |
| QuoteLifecycle.SelectorApprovalBreaksInvariant | components/QuotesModule.tsx:176-186 | some state with unique ids gets two Approved quotes for one client through the status selector |
| QuoteLifecycle.ApproveWithDuplicateIdBreaksInvariant | components/QuotesModule.tsx:43-47 | when two quotes share an id, a confirmed approval can leave a client with two Approved quotes |
| QuoteLifecycle.DeleteWithDuplicateIdRemovesApproved | components/QuotesModule.tsx:56 | when two quotes share an id, deleting a non-Approved row can remove an Approved quote |
| Totals.SubtotalConcat | components/QuotesModule.tsx:88 | the item subtotal of two concatenated item lists is the sum of their subtotals |
| Totals.SumLines | components/QuotesModule.tsx:88 | accumulating quantity times unit price from the first line to the last gives the item subtotal |
| Totals.ComputeTotals | components/QuotesModule.tsx:88-91 | the stored general subtotal adds labour to the item subtotal, and IVA and total agree with the preview figures; total minus IVA is the general subtotal |
| Totals.PreviewAfterAppend | components/QuotesModule.tsx:322-333 | adding a line raises the preview subtotal by that line's amount and the preview total by that amount times 1.19 |
| Totals.WorkedExample | components/QuotesModule.tsx:88-91 | 2 × 100000 and 1 × 50000 with 30000 labour give 250000, 280000, 53200 and 333200 |
| QuoteBuilder.ToggleServiceType | components/QuotesModule.tsx:60-66 | toggling flips whether the type is marked, marks an unmarked type by appending it after the existing marks, and leaves every other type's mark and every other form field unchanged |
| QuoteBuilder.ToggleTwiceRestores | components/QuotesModule.tsx:60-66 | marking an unmarked type and toggling it again restores the form exactly |
| QuoteBuilder.ToggleKeepsMarksDistinct | components/QuotesModule.tsx:60-66 | toggling never marks a type twice |
| QuoteBuilder.AddItem | components/QuotesModule.tsx:68-72 | an empty description adds nothing; otherwise the typed line is appended after the old lines with the timestamp's decimal text as its id and the inputs reset to an empty description, quantity 1 and price 0 |
| QuoteBuilder.RemoveItem | components/QuotesModule.tsx:74-76 | exactly the lines with other ids remain, and an id no line carries changes nothing; no other form field changes |
| QuoteBuilder.RemoveItemSplits | components/QuotesModule.tsx:75 | removing from a split list of lines is removing from each part and joining the results, so repeated ids are all removed and the other lines keep order and multiplicity |
| QuoteBuilder.RemoveUndoesAdd | components/QuotesModule.tsx:68-76 | removing a line just added, when no old line has the timestamp's id, gives back the previous lines in order |
| QuoteBuilder.AddItemPreview | components/QuotesModule.tsx:322-333 | adding a line raises the preview total by quantity × price × 1.19 |
| QuoteBuilder.SaveQuote | components/QuotesModule.tsx:78-112 | fails without a client, then without a service type, and succeeds otherwise; a saved quote is prepended before the unchanged old quotes with id `COT-<count + 101>`, status Sent, the form's contents, the date and templates, and totals equal to the preview; nothing else changes |
| QuoteBuilder.SavePreservesInvariant | components/QuotesModule.tsx:104-109 | saving keeps the approval invariant |
| QuoteBuilder.SaveKeepsUniqueIdsIffFresh | components/QuotesModule.tsx:94 | saving keeps ids unique if and only if the new `COT-` id is not already taken |
| QuoteBuilder.CreateDeleteCreateDuplicatesId | components/QuotesModule.tsx:94 | create two quotes, delete the first, create a third: the third reuses the second's id |
| Clients.SaveClient | components/ClientsModule.tsx:27-43 | without a name or a tax number nothing changes; a new client is prepended with the timestamp as id; an edit rewrites in place every client with the edited id and keeps that id; only the client list changes |
| Clients.SaveClientKeepsIdsUnique | components/ClientsModule.tsx:30-41 | edits keep client ids unique, and so does a creation whose timestamp id is not in use |
| Clients.SaveUnchangedEditIsNoOp | components/ClientsModule.tsx:30-34 | with unique ids, opening a client and saving without changes leaves the state as it was |
| Clients.NewClientFromBlankForm | components/ClientsModule.tsx:14-23 | a client created from the blank form with a name and a tax number has empty address, phone, email and contact person and the timestamp id |
| Clients.DeleteClient | components/ClientsModule.tsx:45-49 | on confirmation exactly the clients with other ids remain; refusal, or an id no client carries, changes nothing; nothing else changes |
| Clients.DeleteClientKeepsOrder | components/ClientsModule.tsx:47 | deleting the only client with an id leaves the others in their order |
| Clients.DeleteClientSplits | components/ClientsModule.tsx:47 | deleting from a split list is deleting from each part and joining the results, so repeated ids are all removed and the other clients keep order and multiplicity |
| Clients.DeleteClientLeavesQuotesDangling | components/ClientsModule.tsx:45-49 | a deleted client's quotes stay and then name a client that no longer exists |
| Text.NatToString | components/ClientsModule.tsx:38 | a timestamp's decimal text is a non-empty string of digits |
| Text.NatToStringInjective | components/ClientsModule.tsx:38 | different timestamps give different decimal texts |
| Text.LastFour | components/TechniciansModule.tsx:36 | `slice(-4)` keeps the last four characters, or the whole string when it is shorter |
| Text.SuffixValue | components/TechniciansModule.tsx:36 | the last `k` characters of a number's decimal text read back as the number modulo `10^k` |
| Text.LastFourDigits | components/TechniciansModule.tsx:36 | the last four characters of a timestamp's text are all of it below 10000, and from 1000 on four digits worth the timestamp modulo 10000 |
| Text.DigitsValueInjective | components/TechniciansModule.tsx:36 | two digit strings of the same length that read as the same number are equal |
| Text.LastFourRepeats | components/TechniciansModule.tsx:36 | from 1000 on, timestamps 10000 apart have the same last four characters |
| Technicians.TechnicianId | components/TechniciansModule.tsx:36 | a technician id is `t` and one to four digits: the whole timestamp below 10000, and from 1000 on four digits that read as the timestamp modulo 10000 |
| Technicians.SaveTechnicianKeepsIdsUnique | components/TechniciansModule.tsx:30-39 | edits keep technician ids unique, and so does a creation whose timestamp id is not in use |
| Technicians.SaveUnchangedTechnicianEditIsNoOp | components/TechniciansModule.tsx:30-32 | with unique ids, opening a named technician and saving without changes leaves the state as it was |
| Technicians.TechnicianIdsRepeat | components/TechniciansModule.tsx:36 | from 1000 on, every timestamp gives the same technician id as the timestamp ten seconds later |
| Technicians.SaveTechnician | components/TechniciansModule.tsx:27-41 | without a name nothing changes; a new technician is prepended; an edit rewrites in place every technician with the edited id and keeps that id; only the technician list changes |
| Technicians.NewTechnicianDefaultsSpecialty | components/TechniciansModule.tsx:14 | a technician created from the blank form gets the specialty "CCTV y Seguridad" |
| Technicians.DeleteTechnician | components/TechniciansModule.tsx:43-47 | on confirmation exactly the technicians with other ids remain; refusal, or an id no technician carries, changes nothing |
| Technicians.DeleteTechnicianKeepsOrder | components/TechniciansModule.tsx:45 | deleting the only technician with an id leaves the others in their order |
| Technicians.DeleteTechnicianSplits | components/TechniciansModule.tsx:45 | deleting from a split list is deleting from each part and joining the results, so repeated ids are all removed and the other technicians keep order and multiplicity |
| Reports.ApprovedQuotes | components/ReportsModule.tsx:19 | the link selector offers quotes from the list that are Approved, and every Approved quote |
| Reports.VisitOf | components/ReportsModule.tsx:26 | returns the first visit in list order with the id, and none exactly when no visit has it |
| Reports.SaveReport | components/ReportsModule.tsx:21-41 | fails exactly when the visit or the activities are empty; otherwise prepends one report with the visit, date and activities, the visit's client or '' when the visit is not found, the quote link only when one was picked, empty equipment and observations, and 12 months of warranty; nothing else changes |
| Reports.ReportId | components/ReportsModule.tsx:28 | a report id is `REP-` and one to four digits: the whole timestamp below 10000, and from 1000 on four digits that read as the timestamp modulo 10000 |
| Reports.ReportIdsRepeat | components/ReportsModule.tsx:28 | from 1000 on, every timestamp gives the same report id as the timestamp ten seconds later |
| Reports.ReportCopiesVisitClient | components/ReportsModule.tsx:26-30 | with unique visit ids, a new report belongs to the client of its visit |
| Reports.ReportLinksApprovedQuote | components/ReportsModule.tsx:19-31 | a quote picked from the selector is an Approved quote of the list and becomes the new report's link |
| Reports.LinkedQuote | components/ReportsModule.tsx:51 | the quote found for a report carries the report's quote id; none is found only when no quote has it |
| Reports.QuoteLine | components/ReportsModule.tsx:52 | the line is non-empty exactly when the report names a quote id that some quote in the list carries, and then it is the "COTIZACIÓN ASOCIADA: " marker, the report's own quote id and a newline; it is non-empty exactly when the linked-quote lookup finds a quote |
| Reports.ReportSummary | components/ReportsModule.tsx:49-53 | the summary opens with the client and date lines, continues with the linked-quote line exactly when the quote is found, and ends with the activities |
| Reports.ReportSummaryTail | components/ReportsModule.tsx:49-53 | the "ACTIVIDADES REALIZADAS:" heading sits right before the activities, and the summary's length is that of the head, the quote line, the heading and the activities, so nothing else lies between them |
| Storage.InitialDataIsEmptyAndOffline | utils.ts:17-29 | the initial state has all six collections empty and sync off with no address and no key, it is what a missing document loads as, and saving it starts no push |
| Storage.LoadData | utils.ts:31-40 | without a window, without a document, with an empty one or with one that does not parse, loading gives the initial state; otherwise it gives the parsed state |
| Storage.SaveData | utils.ts:42-50 | with a window the serialized state is written, and a push starts exactly when sync is on and the address and key are filled in; without a window nothing happens |
| Storage.LoadAfterSave | utils.ts:31-50 | loading after a save gives back the saved state when the text format reads back what it writes |
| Storage.ClientMappingRoundTrip | utils.ts:69-77 | renaming a client to the remote row and back is the identity, in both directions, with `contactPerson` sent as `contact_person` |
| Storage.ClientListRoundTrip | utils.ts:123-131 | pulling back the pushed client rows gives the same client list |
| Storage.QuoteMappingRoundTrip | utils.ts:85-89 | a pushed quote row carries the quote's id and client and unwraps to the quote; a row reads back as itself only when its columns agree with its document |
| Storage.QuoteListRoundTrip | utils.ts:132 | pulling back the pushed quote rows gives the same quote list |
| Storage.Push | utils.ts:55-99 | sends the client upsert once exactly when there are clients, first, and the quote upsert once, last, exactly when there are quotes and no client POST threw; the request count is the sum of those two; the write-back happens exactly when no POST threw, and changes only `lastSync` |
| Storage.EmptyPushRecordsSync | utils.ts:64-95 | a push of a state with no clients and no quotes sends nothing and still records the sync time |
| Storage.ClientFailureSkipsQuotes | utils.ts:64-97 | when the client POST throws, the quotes are not sent and nothing is written back |
| Storage.FetchFromRemote | utils.ts:104-138 | fails if either request throws, either answer has an error status, or either body is unreadable; otherwise returns both collections read back from their rows |
| Storage.PushThenFetch | utils.ts:65-132 | fetching exactly the rows a completed push sent gives back the pushed clients and quotes |
| Settings.Import | components/SettingsModule.tsx:15-32 | with no file, an unparsable file or a refused confirmation the state is untouched; a confirmed backup replaces the whole state; there is no other outcome |
| Settings.ExportThenImport | components/SettingsModule.tsx:21-26 | importing an exported document, confirmed, gives back the exported state; refused, it keeps the current one |
| Settings.MergePull | components/SettingsModule.tsx:48-52 | a collection the pull returned replaces the local one, even when empty; an absent one is kept; technicians, visits, reports, maintenance and sync settings are unchanged |
| Settings.ClientsOnlyPullKeepsRest | components/SettingsModule.tsx:48-52 | a pull that returned only clients leaves the quotes and all other collections as they were |
| Settings.PullFromCloud | components/SettingsModule.tsx:34-60 | without address or key it alerts and leaves the state and the in-progress flag alone; otherwise the flag ends cleared, a failed fetch changes nothing, a refused download changes nothing, and a confirmed one merges; only clients and quotes can change |
| Settings.EmptyPullClearsLocal | components/SettingsModule.tsx:50-51 | a confirmed pull of empty remote tables empties the local clients and quotes |
| Settings.PullAfterPushIsNoOp | components/SettingsModule.tsx:42-52 | pulling back the rows a push sent, confirmed, leaves the state as it was |
| Settings.TempConfigOf | components/SettingsModule.tsx:13 | the settings form starts from the saved sync settings, or from sync off with no address and no key |
| Settings.SaveSyncConfig | components/SettingsModule.tsx:62-65 | saving the settings stores them and changes nothing else |
| Settings.SaveSyncConfigEffects | components/SettingsModule.tsx:62-65 | saving the settings as first shown is a no-op when settings exist, and after saving, a save pushes exactly when the stored settings are on and complete |
| Settings.Reset | components/SettingsModule.tsx:67-71 | a confirmed reset leaves every collection empty and sync off with no address, no key and no sync time; refusal changes nothing |
| Settings.ResetIsInitial | components/SettingsModule.tsx:67-71 | a confirmed reset is exactly the initial state, and saving and reloading it gives an empty, offline state that starts no push |

## Left out

- JSX rendering, styling, icons, `isFormOpen`, `resetForm` and the edit form's
  open/close state have no logic to model. The forms enter the model as the values
  they hold when a handler runs.
- `localStorage`, `fetch`, request headers, `Promise.all`, `FileReader`,
  `console.*`, `alert`, `confirm` and `window.open` are I/O. Their results are
  parameters, and alerts become the `Notice` a pull ends with.
- The wording of the boilerplate observations and commercial conditions is left
  out. It is the `Templates` parameter of a quote save.
- `formatCurrency`, the PDF and WhatsApp helpers and `exportToJson` are
  presentation or I/O. Export appears only as `serialize` in
  `Settings.ExportThenImport`.
- Totals.ComputeTotals: uses exact real arithmetic, so IEEE-754 rounding of the
  sums, of `× 0.19` and of `× 1.19` is not modelled. With doubles, `x + x × 0.19`
  and `x × 1.19` can differ in the last bit.
- Storage.Push: a push runs asynchronously after the save that started it. Its
  write-back stores the pushed state plus `lastSync`, so it can overwrite a newer
  state saved in between. The model has no interleaving, so it does not show this
  overwrite. A `localStorage` write that throws inside the push is also not
  modelled.
- Settings.PullFromCloud: the merge applies to the state at the moment of the
  update (`prev`). The model uses the state the pull started from, so edits made
  while the fetch was in flight are not modelled.
- Settings.Import: the parse function returns an application state or nothing.
  A document that parses but has another shape (a number, `null`, missing
  collections) is accepted by the code. The model does not represent such a
  document.
- Storage.LoadData: the same applies to a stored document that parses but is not
  an application state.
- Storage.FetchFromRemote: the three failure kinds stand for the one exception
  the code throws. The caller treats them all the same way.
- Visits and maintenance alerts have no screens in this core. Their records carry
  only the fields the reports screen reads.
- The shared type declarations file is not part of this model. The record types
  are inferred from how the screens use them.
