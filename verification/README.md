# Verified model of five protocols

This project models five parts of the system in Dafny and proves what they are for.

- **Resumable migrations** (`Migration*.dfy`, `RuntimeMigrate.dfy`). A runner takes an advisory lock and mixes journaled
  batches with online stages that build an index concurrently and then swap constraints and journal in one transaction.
  `MigrationProtocol` is a state machine in which any number of runners make one query at a time, and any of them may
  fail or be killed between two queries. `MigrationInvariant` and `MigrationSafety` prove what every interleaving keeps
  and what one undisturbed run achieves. `RuntimeMigrate` is the runner's code itself, with its `nextIndex` and its
  nested cleanups, proved to take only steps of that machine.
- **Billing calendar** (`CivilCalendar`, `CivilText`, `BillingZone`, `CommercialTerms`, `ExplicitTerms`). Civil dates,
  the search that inverts a variable UTC offset, cycles counted from an anchor, and periods written as two dates.
- **Shift exports** (`Utf8`, `TextEncoding`, `Texts`, `Csv`, `MarkingCodes`, `Gismt*`, `ShiftBlocks`, `BlockSplit`,
  `ShiftExport*`, `ShiftTextReadBack`, `ShiftTextFiles`, `ShiftXmlFiles`). Blocks, parts under a line limit, and their
  bytes, with readers for the CSV, XML and TXT files that are written independently of the renderers, and what the files
  say spelled out from the source. `MarkingCodes` holds the rules of `formatSsccWithAi` and `parseKmSegments`, on which
  they rest; `ShiftExportOutcome` says when an export is made.
- **Shift-entry lease** (`ShiftEntryLease`). Asynchronous handlers that lose control at every await. A credential
  generation that the code calls current is one that is not sealed; a newer one may have replaced it, and a handler that
  captured none passes the check.
- **Legal release registry** (`LegalRegistry`). The validator, the declarative specification it decides, and what
  an accepted list guarantees as a whole.

Assumptions. A drizzle batch runs, in one transaction, the given migrations whose folderMillis is above the latest
journal row, and folderMillis values are positive and strictly increasing; an interrupted concurrent build leaves an
invalid index; a lost session drops its lock and its open transaction. The special migrations stand in the order in
which they were written, after those that create their tables. The billing zone is an arbitrary function from instants
to offsets: whole seconds, 0 to 6 hours, at most one change in any 6 hours. Strings are sequences of Unicode scalar
values, encoded as in section 3 of RFC 3629; CSV is read as in section 2 of RFC 4180 with a semicolon; attributes are
normalised and references decoded as in sections 3.3.3 and 4.6 of XML 1.0.

Where the code does less than one might expect of it, the model follows the code, a lemma gives an input, and another
says exactly when it does: TXT files can hold more line breaks than their parts announce (`TxtCountFallsShort`,
`TxtLinesExactIff`), the CSV table of one empty field leaves a file that reads back as no rows (`EmptyFieldIsLost`,
`CsvRoundTripIff`), years below 100 are refused as effective dates (`YearFiftyIsRefused`, `EffectiveDateIff`), and a
floor task can be entered under a generation that is not the station's credential any more (`ReplacedGenerationPublishes`,
`NoGenerationPublishes`, `PublishedUnderCredentialIff`).

## Model

| member | source | states |
|---|---|---|
| `MigrationSafety.JournalMatchesEffects` | packages/db/src/runtime-migrate.ts:57-88 | in every state that any interleaving of runners, failed queries and kills reaches, the journal is a prefix of the catalog, no shorter than at the start, and exactly the journaled migrations have taken effect, once each and in order |
| `MigrationSafety.UniquenessAlwaysHolds` | packages/db/src/runtime-migrate.ts:163-180 | in every reachable state the old or the new offer uniqueness is in force once the table exists, and a journaled online stage has its index present and valid |
| `MigrationSafety.OldUniquenessDroppedOnlyBySwap` | packages/db/src/runtime-migrate.ts:163-180 | the only event that drops the old uniqueness is the commit that also adds the new one and the journal row |
| `MigrationSafety.RunsEndWell` | packages/db/src/runtime-migrate.ts:243-249 | no run of any interleaving ends in a refusal or in a rejected statement; a run that reports success left its whole package journaled and has given the lock back; only the holder of the lock works |
| `MigrationSafety.UndisturbedRunCompletes` | packages/db/src/runtime-migrate.ts:57-98 | after any interleaving, one undisturbed run succeeds and leaves the schema that the migration files give on an empty database; a package already journaled changes nothing |
| `MigrationSafety.AloneReaches` | packages/db/src/runtime-migrate.ts:131-229 | from any reachable point inside a run, its remaining queries alone bring it to success and complete the package, and leave other runners as they are |
| `MigrationSafety.ApplyKeepsInv` | packages/db/src/runtime-migrate.ts:131-398 | every event of every runner keeps the global invariant and never shortens the journal |
| `MigrationSafety.ReplayKeepsInv` | packages/db/src/runtime-migrate.ts:57-98 | so does every sequence of events |
| `MigrationSafety.NextSmaller` | packages/db/src/runtime-migrate.ts:131-398 | every answered query brings a run strictly nearer to its end |
| `MigrationSafety.AnyRunMayStop` | packages/db/src/runtime-migrate.ts:57-124 | wherever a run is, it may fail or be killed; it then loses its open transaction, its lock when its session ends, and nothing else |
| `MigrationSafety.GuardsRefuseIff` | packages/db/src/runtime-migrate.ts:243-249 | the two uniqueness guards refuse exactly when the old uniqueness is missing, or the new grant uniqueness is there without its journal row; an error of the query itself is one that PostgreSQL raises |
| `MigrationSafety.InspectionRefusesIff` | packages/db/src/runtime-migrate.ts:274-293 | the inspection refuses exactly an index under the prepared name whose uniqueness or columns are not those of the migration, goes on to drop an invalid one, to build a missing one, and to use a valid one |
| `MigrationSafety.LatestIsLargest` | packages/db/src/runtime-migrate.ts:155-157 | the latest row asked for is the largest of the journal, or 0, whatever the order in which rows were added |
| `MigrationSafety.PackagedValidationsApart` | packages/db/src/runtime-migrate.ts:186-214 | in every package that is a prefix of the catalog no transaction holds a validation migration together with its predecessor |
| `MigrationInvariant.NextOk` | packages/db/src/runtime-migrate.ts:131-398 | a query answered in a consistent state is never refused or rejected, keeps the database consistent, touches nothing once the package is journaled, and gives up the old uniqueness only for the new one |
| `MigrationInvariant.GuardStepOk` | packages/db/src/runtime-migrate.ts:354-360 | the predecessor and unjournaled-uniqueness guards pass in every state that earlier runs can leave |
| `MigrationInvariant.InspectStepOk` | packages/db/src/runtime-migrate.ts:274-293 | the index that the inspection finds under the prepared name has the expected uniqueness and columns, whichever part of an earlier build left it |
| `MigrationInvariant.ColumnStepOk` | packages/db/src/runtime-migrate.ts:361-374 | adding the column, adding the check and validating it succeed from whatever part an earlier run did |
| `MigrationInvariant.IndexStepOk` | packages/db/src/runtime-migrate.ts:333-351 | dropping an invalid index and rebuilding it succeed, and a killed build leaves a state the next run accepts |
| `MigrationInvariant.BodyRuns` | packages/db/src/runtime-migrate.ts:256-264 | the transaction that ends an online stage leaves exactly the canonical schema of the migration file |
| `MigrationSchema.CanonicalShape` | packages/db/src/runtime-migrate.ts:128-130 | the migration files never fail in order on an empty database, and a closed form describes the schema they build |
| `MigrationSchema.FileKeepsShape` | packages/db/migrations/0127_dark_beyonder.sql:1-3 | each file takes the canonical schema of the files before it to that of the files up to it |
| `MigrationPlan.StagesCoverOnce` | packages/db/src/runtime-migrate.ts:154-228 | for every offer index and any present or absent positions of the other four, the stages joined in order are migrations 0..n-1, each once |
| `MigrationPlan.ValidationsStandApart` | packages/db/src/runtime-migrate.ts:186-214 | with increasing positions no transaction holds a validation migration together with its predecessor |
| `MigrationPlan.ValidationApartIff` | packages/db/src/runtime-migrate.ts:186-197 | at arbitrary positions the first validation shares a batch with its predecessor exactly when the offer migration is missing or stands after it |
| `MigrationPlan.PackageStagesFit` | packages/db/src/runtime-migrate.ts:154-228 | in a package that is a prefix of the catalog every online migration, and nothing else, is handled by the online stage made for it |
| `RuntimeMigrate.Session.RunRuntimeMigrations` | packages/db/src/runtime-migrate.ts:33-125 | the runner's code returns normally exactly when the lock was free and every query was answered; it then has completed its package; it otherwise leaves a database that the same package still completes; it never keeps the lock |
| `RuntimeMigrate.Session.MigrateWithOnlineOfferVariants` | packages/db/src/runtime-migrate.ts:131-229 | the code with its `nextIndex` goes through exactly the planned stages; an early end is the environment's doing or an outcome that the machine records |
| `RuntimeMigrate.Session.OnlineOfferVariants` | packages/db/src/runtime-migrate.ts:155-184 | the offer stage, its ROLLBACK and its finally block take only steps of the machine and end before the next stage |
| `RuntimeMigrate.Session.OnlineGrantReadiness` | packages/db/src/runtime-migrate.ts:231-272 | the same for the readiness stage and its uniqueness guard |
| `RuntimeMigrate.Session.OnlineCodeRegistryShiftIndex` | packages/db/src/runtime-migrate.ts:295-331 | the same for the code registry index |
| `RuntimeMigrate.Session.PrepareOnlineOfferVariants` | packages/db/src/runtime-migrate.ts:353-398 | guard, column, check, validation and index are the machine's queries in the machine's order |
| `RuntimeMigrate.Session.JournaledTransaction` | packages/db/src/runtime-migrate.ts:163-180 | when it returns, the database is what the statements make of it plus the one journal row; otherwise it is unchanged |
| `RuntimeMigrate.Session.DialectMigrate` | packages/db/src/runtime-migrate.ts:154-154 | a batch asks for the latest row and runs the newer migrations in one transaction; an unhappy end leaves the database unchanged |
| `CivilCalendar.CivilFromDay` | packages/domain/src/commercial-terms.ts:326-331 | the date of a day number is a date of the calendar with that number |
| `CivilCalendar.CivilRoundTrip` | packages/domain/src/commercial-terms.ts:326-338 | and that date is the only one: dates and day numbers are in bijection |
| `CivilCalendar.DayOrder` | packages/domain/src/commercial-terms.ts:333-338 | day numbers grow with the calendar order of dates, across month and leap-year lengths |
| `CivilCalendar.DateTimeRoundTrip` | packages/domain/src/commercial-terms.ts:326-331 | civil date-times and milliseconds are inverse |
| `CivilCalendar.DayZero` | packages/domain/src/commercial-terms.ts:326-338 | day 0 is 1970-01-01 |
| `CivilCalendar.LeapYears` | packages/domain/src/commercial-terms.ts:333-338 | the leap years are those of the Gregorian rule |
| `CivilCalendar.FourHundredYears` | packages/domain/src/commercial-terms.ts:333-338 | 400 years always have 146097 days |
| `BillingZone.SearchIsExact` | packages/domain/src/commercial-terms.ts:294-312 | for every offset function of the zone the probe search returns the earliest instant that shows the local time, and fails exactly when no instant shows it |
| `BillingZone.AllShownAreCandidates` | packages/domain/src/commercial-terms.ts:30-32 | the seven probes miss no instant that shows the local time |
| `BillingZone.GapAndOverlap` | packages/domain/src/commercial-terms.ts:306-311 | where the clock moves forward the skipped local times resolve to nothing, where it moves back the repeated ones resolve to the earlier of their two instants |
| `BillingZone.JustBefore` | packages/domain/src/commercial-terms.ts:307-310 | just before the chosen instant the clock shows an earlier time, by no more than a skipped stretch |
| `CommercialTerms.ResolvePeriodIff` | packages/domain/src/commercial-terms.ts:57-88 | for every zone, anchor, billing and cycle, a period resolves exactly when the billing is monthly or yearly, the cycle is 0 to 2^53 - 2, the anchor lies in the years 1 to 9999, and each of its two boundaries, months or years after the anchor on its day or the last day of a shorter month, lies in those years and is shown by some instant; it then has the given billing, anchor and cycle, starts at the anchor or the first instant of its boundary, and ends at the first instant of the next |
| `CommercialTerms.PeriodErrors` | packages/domain/src/commercial-terms.ts:57-88 | which of the five errors it is otherwise, in the order of the checks |
| `CommercialTerms.BoundaryIff` | packages/domain/src/commercial-terms.ts:237-266 | a boundary resolves exactly when its year is 1 to 9999 and some instant shows it, to the first such instant, and the error says which of the two is missing |
| `CommercialTerms.BoundariesNeverDrift` | packages/domain/src/commercial-terms.ts:237-266 | boundary k shows the anchor's time of day, k months or years on, on the anchor's day or the last day of a shorter month |
| `CommercialTerms.YearIsTwelveMonths` | packages/domain/src/commercial-terms.ts:244-257 | month boundary 12k equals year boundary k, errors included |
| `CommercialTerms.PeriodsMeet` | packages/domain/src/commercial-terms.ts:75-77 | each period is non-empty and ends where the next starts, also from the special start of cycle 0 |
| `CommercialTerms.PeriodsTile` | packages/domain/src/commercial-terms.ts:57-88 | the periods that resolve start at the anchor and every covered instant lies in exactly one |
| `CivilText.ParseFormat` | packages/domain/src/commercial-terms.ts:92-108 | a formatted date parses to itself |
| `CivilText.FormatParse` | packages/domain/src/commercial-terms.ts:149-154 | a text that parses is the format of its date |
| `CivilText.TextOrder` | packages/domain/src/commercial-terms.ts:117-119 | string order of two dates is calendar order |
| `ExplicitTerms.TermResolvesIff` | packages/domain/src/commercial-terms.ts:111-140 | a pair of dates resolves to two instants exactly when it runs forwards, its next day is supported, and the instants are the first showings of the two midnights |
| `ExplicitTerms.TermRoundTrip` | packages/domain/src/commercial-terms.ts:143-165 | reading a resolved term gives the same two texts when its start is in year 1 or later |
| `ExplicitTerms.PeriodRoundTripIff` | packages/domain/src/commercial-terms.ts:111-165 | a pair of instants is the period of the dates read from it exactly when it runs forwards between first showings of midnights and ends in the supported years |
| `ExplicitTerms.CustomAcceptedIff` | packages/platform-contracts/src/commercial-terms.ts:72-97 | the schema accepts a custom period exactly when it has cycle 0, is anchored at its start in year 1 or later, and is the image of some term |
| `ExplicitTerms.CycleAcceptedIff` | packages/platform-contracts/src/commercial-terms.ts:72-97 | the schema accepts a monthly or yearly period exactly when its cycle and anchor are in range and its two instants are the first to show the boundaries of that cycle, the start of cycle 0 being the anchor itself |
| `ExplicitTerms.TermReadsIff` | packages/domain/src/commercial-terms.ts:143-165 | a period has dates exactly when both its instants are supported local midnights; they are the local date of its start and of the last millisecond before its end |
| `Utf8.ByteOrderIsCodePointOrder` | packages/domain/src/document-text-encoding.ts:51-62 | comparing encodings byte by byte is comparing texts code point by code point |
| `Utf8.DecodeEncode` | packages/domain/src/document-text-encoding.ts:17-17 | decoding inverts the encoding of every text |
| `Utf8.BytesHaveTextBreaks` | packages/domain/src/document-text-encoding.ts:25-28 | an encoding has the line breaks of its text |
| `Utf8.CompareIff` | packages/domain/src/document-text-encoding.ts:51-62 | the comparison answers -1 exactly when one text is a proper prefix of the other or smaller at the first place where they differ, 1 for the converse, and 0 for equal ones |
| `TextEncoding.CompareBytes` | packages/domain/src/document-text-encoding.ts:51-62 | the loop answers -1, 1 and 0 exactly in these cases |
| `TextEncoding.ByteComparator.BytesOf` | packages/domain/src/document-text-encoding.ts:13-20 | a cached encoding is the encoding; the cache gains this text and nothing else |
| `TextEncoding.ByteComparator.Compare` | packages/domain/src/document-text-encoding.ts:9-23 | whatever is cached, the comparator answers -1 exactly when the left text is a proper prefix of the right one or has the smaller code point at the first place where they differ, 1 for the converse, and 0 for equal texts |
| `TextEncoding.ComparatorIsTotalOrder` | packages/domain/src/document-text-encoding.ts:22-22 | that order is total: antisymmetric, transitive, and equal only on equal texts |
| `TextEncoding.LfTextBreaksIff` | packages/domain/src/document-text-encoding.ts:25-28 | a text of n lines has at least n line breaks, and exactly n when and only when every line is a single one |
| `Csv.EncodeSemicolonCsvRows` | packages/domain/src/document-text-encoding.ts:37-45 | the byte array holds the mark and the encoded records |
| `Csv.MarkIsEncoded` | packages/domain/src/document-text-encoding.ts:1-5 | the mark is the encoding of U+FEFF |
| `Csv.PlainFieldIff` | packages/domain/src/document-text-encoding.ts:47-49 | a field is written as it is exactly when it holds no semicolon, quote or line end |
| `Csv.CsvRoundTripIff` | packages/domain/src/document-text-encoding.ts:37-49 | a reader recovers the table exactly when every row has a field and the table is not the single empty field |
| `Csv.CsvBytesBreaks` | packages/domain/src/document-text-encoding.ts:37-45 | a document has the line breaks that its rows are counted with, whatever the fields hold; only a single row without text is not written at all |
| `Csv.EmptyFieldIsLost` | packages/domain/src/document-text-encoding.ts:38-39 | the table of one empty field reads back as no rows |
| `Csv.CountCsvPhysicalLines` | packages/domain/src/shift-exports.ts:778-794 | the loop counts one line more than the breaks of the field, CR LF as one |
| `Csv.RowLinesAreBreaks` | packages/domain/src/shift-exports.ts:772-776 | the row formula is one more than the breaks of its fields |
| `GismtReader.EscapingIsOnePass` | packages/domain/src/gismt-aggregation.ts:214-220 | the successive replacement passes equal a one-pass character map |
| `GismtReader.DecodeInvertsEscape` | packages/domain/src/gismt-aggregation.ts:214-220 | decoding references inverts both escapes |
| `GismtReader.CheckedIsClean` | packages/domain/src/gismt-aggregation.ts:167-212 | what passes the checks holds no character that would break a line or be normalised |
| `MarkingCodes.SegmentsIff` | packages/domain/src/gs1/km.ts:43-93 | exactly which codes are read and as what: 01 and 14 digits, 21 and a serial number without separator, with or without the prefix ]d2, and with or without a tail of groups of two digits and a value |
| `GismtLaws.CodeForms` | packages/domain/src/gismt-aggregation.ts:200-212 | all four scanned forms of one GTIN and serial number carry the same identification |
| `GismtLaws.WrittenCodeIff` | packages/domain/src/gismt-aggregation.ts:200-212 | what is written for a code is exactly the identification it carries, when XML can hold it; every other code is an error |
| `GismtLaws.DocumentSaysSource` | packages/domain/src/gismt-aggregation.ts:82-150 | reading a rendered document gives the trimmed number and metadata and, in order, one pack for each box, 00 and its SSCC with the identification of each of its codes, and one for each pallet, 00 and its SSCC with 00 and the SSCC of each of its boxes |
| `GismtLaws.DocumentIsLaidOut` | packages/domain/src/gismt-aggregation.ts:101-139 | the lines of a document, written out literally; members of pallets are cis elements |
| `GismtLaws.RenderedIff` | packages/domain/src/gismt-aggregation.ts:82-99 | a document is made exactly for a ten-digit number that does not begin with 00, metadata within their limits of UTF-16 units and characters, canonical time stamps, SSCCs of 18 digits and codes that carry an identification |
| `GismtLaws.RenderErrors` | packages/domain/src/gismt-aggregation.ts:88-99 | the errors about the number and the metadata, exactly and in their order, and that of a pallet when all boxes are good |
| `GismtLaws.FirstBadBoxNamed` | packages/domain/src/gismt-aggregation.ts:110-115 | a bad box is named by the first one: its SSCC, or else one of its codes |
| `GismtLaws.TrimIs` | packages/domain/src/gismt-aggregation.ts:168-170 | trimming takes exactly the white space at both ends |
| `GismtLaws.PermittedIff` | packages/domain/src/gismt-aggregation.ts:69-71 | the characters let through are those of XML 1.0, section 2.2, without tab, CR, LF and DEL |
| `GismtLaws.Utf16LengthIs` | packages/domain/src/gismt-aggregation.ts:191-193 | a text counts one for each character and one more for each outside the basic plane |
| `GismtTimestamps.TimestampIff` | packages/domain/src/gismt-aggregation.ts:195-198 | the time stamps accepted are exactly the texts that some moment within the range of a Date is written as |
| `GismtReader.RenderedLineCount` | packages/domain/src/gismt-aggregation.ts:73-80 | the announced counts are those of the bytes and of the boxes |
| `BlockSplit.SplitBlocks` | packages/domain/src/shift-exports.ts:627-675 | the loop computes the greedy cut, errors included |
| `BlockSplit.SplitKeepsBlocks` | packages/domain/src/shift-exports.ts:649-674 | every block once and in order, no empty part from non-empty input, every part counted right and within the limit |
| `BlockSplit.SplitFailsIff` | packages/domain/src/shift-exports.ts:653-661 | the cut fails exactly when some block alone exceeds the limit, with the error of the first such block |
| `BlockSplit.SplitUsesFewestParts` | packages/domain/src/shift-exports.ts:663-667 | no order-preserving cut within the limit has fewer parts |
| `ShiftBlocks.BoxBlockCounts` | packages/domain/src/shift-exports.ts:431-468 | the counters of a box block are those of what it writes |
| `ShiftBlocks.PalletModeBoxCounts` | packages/domain/src/shift-exports.ts:594-625 | the same in the pallets mode |
| `ShiftBlocks.PalletGroupCounts` | packages/domain/src/shift-exports.ts:538-586 | a pallet group writes and counts all its boxes and itself |
| `ShiftBlocks.PalletBoxesCounts` | packages/domain/src/shift-exports.ts:494-530 | a pallet layer block counts what it writes, and covers the codes of its boxes |
| `ShiftExports.LineCountsAreExact` | packages/domain/src/shift-exports.ts:353-397 | every CSV and XML file has exactly the line breaks its part announces |
| `ShiftExportLaws.TxtLinesExactIff` | packages/domain/src/shift-exports.ts:416-486 | the TXT files do exactly when the texts written as they are, codes and the SSCCs of the frozen version, are single lines |
| `ShiftExportLaws.TxtCountFallsShort` | packages/domain/src/shift-exports.ts:421-428 | an accepted input whose only file has more line breaks than announced: one flat TXT code with a line break |
| `ShiftExportReadBack.FilesStayWithinLimit` | packages/domain/src/shift-exports.ts:627-675 | with a limit set, every file has its announced line breaks, within the limit |
| `ShiftExportLaws.CountersAreConserved` | packages/domain/src/shift-exports.ts:366-375 | codes, boxes and pallets of the parts add up to those of the source; the pallet layer counts what stands on pallets |
| `ShiftExportOutcome.ExportSucceedsIff` | packages/domain/src/shift-exports.ts:308-361 | exactly which exports are made: known format and version, source of its mode, date of its shape, limit none or 2 to a million and large enough for every indivisible piece, at least one code, 18 digits in every SSCC shown, and for XML the number, the name, the codes, and the document of the whole and of every file |
| `ShiftExportOutcome.ExportErrors` | packages/domain/src/shift-exports.ts:308-351 | what each refusal means: the first checks exactly and in order, an error about the source names a defect it has, and a limit error the first piece that is too long, as a pallet or as a box |
| `ShiftExportSizes.KnownFormats` | packages/domain/src/shift-exports.ts:139-306 | the formats with their versions, extensions and modes, and which two are frozen |
| `ShiftExportSizes.BlocksAreSized` | packages/domain/src/shift-exports.ts:416-625 | the lines of every indivisible piece, from its codes, boxes and line breaks, and which pieces are pallets |
| `ShiftXmlFiles.XmlFilesNameThemselves` | packages/domain/src/shift-exports.ts:328-343 | every XML file names the organization, both moments, and its own identifier and number, which carry the number of the file when there are several |
| `ShiftXmlFiles.XmlFilesDiffer` | packages/domain/src/shift-exports.ts:333-335 | of several files no two have the same identifier or the same number |
| `ShiftExportLaws.MemberBoxesPrecedePallets` | packages/domain/src/gismt-aggregation.ts:110-136 | in every pallets XML file a reader finds each member box before, and in the same file as, the pallet naming it |
| `ShiftExportReadBack.XmlFilesReadBack` | packages/domain/src/shift-exports.ts:729-763 | the XML files of an export, read in order, give every box of the source, 00 and its SSCC with the identification of each of its codes, and every pallet, 00 and its SSCC with 00 and the SSCC of each of its boxes, once and in order |
| `ShiftExportReadBack.CsvFilesReadBack` | packages/domain/src/shift-exports.ts:677-694 | every CSV file has the header of its source, and the files, read in order, give the table of the source: every code once, beside its box and its pallet, each as 00 and its SSCC |
| `ShiftTextReadBack.FlatTxtReadsBackIff` | packages/domain/src/shift-exports.ts:420-428 | the lines of all files of a flat TXT export, in order, are the codes exactly when no code holds LF |
| `ShiftTextReadBack.TxtRecordsReadBackIff` | packages/domain/src/shift-exports.ts:443-453 | the records read from all files of a TXT export of boxes, in either order, or of the pallet layer are those of the source exactly when no code is empty or holds LF and, in the frozen version, no SSCC holds LF |
| `ShiftTextFiles.TxtFilesSpellSource` | packages/domain/src/shift-exports.ts:683-694 | for every TXT format, pallets too, and whatever the texts hold, the bytes of all files one after the other are the lines of the source, each ended by LF |
| `ShiftTextFiles.LooseBoxesLookLikeMembers` | packages/domain/src/shift-exports.ts:482-485 | a pallets TXT file does not tell loose boxes from members of the last pallet: two sources with one text |
| `ShiftEntryLease.AtMostOneLease` | apps/station/src/App.tsx:1226-1252 | in every reachable state an issued, unreleased lease is the one in the slot, and an entry is pending exactly while there is one |
| `ShiftEntryLease.StaleReleaseIsHarmless` | apps/station/src/App.tsx:1233-1239 | only the handler of a lease, or a drain, can retire it |
| `ShiftEntryLease.PublishesOnlyUnderCurrentLease` | apps/station/src/App.tsx:1808-1822 | a floor task becomes active only as the last stretch of the handler of the current lease, under no generation or one that is not sealed, while none is active |
| `ShiftEntryLease.PublishedUnderCredentialIff` | apps/station/src/App.tsx:878-898 | the generation a floor task is entered under is the credential of the station exactly when it was as the lease was acquired and none was made or lost since; for a handler without a generation, exactly when the last change since was a loss, or there was none and no credential then |
| `ShiftEntryLease.ReplacedGenerationPublishes` | apps/station/src/lib/credential-recovery.ts:110-112 | a run in which a handler publishes under a generation that a newer one has replaced |
| `ShiftEntryLease.NoGenerationPublishes` | apps/station/src/App.tsx:1812-1813 | a run in which a handler that captured no generation publishes after a rejection |
| `ShiftEntryLease.RejectionIsFinal` | apps/station/src/App.tsx:900-922 | after a rejection took effect no task entered under that credential is or becomes active, whatever handlers are on their way |
| `ShiftEntryLease.OnePublicationPerLease` | apps/station/src/App.tsx:1729-1822 | a lease publishes at most one task |
| `ShiftEntryLease.NoLeaseIsStuck` | apps/station/src/App.tsx:1242-1251 | from every reachable state the handler of the current lease can free the slot, even if every answer is a refusal |
| `ShiftEntryLease.EntryGoesThrough` | apps/station/src/App.tsx:1729-1822 | from every state in which a lease is current, its handler holds it and its generation is none or not sealed, entering and affirmative answers alone, with a grant state or without one, end with the floor task of its kind and number active; so for shifts and inventories, with a generation and without |
| `ShiftEntryLease.FreeStationAdmits` | apps/station/src/App.tsx:1226-1251 | in every state with a free slot and no floor task, acquiring and a settled cancellation give a new handler of either kind its current lease |
| `ShiftEntryLease.EveryEndFreesTheSlot` | apps/station/src/App.tsx:1237-1251 | however the handler of the current lease ends, and also when the station drains, the slot is free at once and the floor task is as it was |
| `ShiftEntryLease.RefusedEntryEnds` | apps/station/src/App.tsx:1735-1811 | a refusal ends the handler at each of the three places that ask, and the loss of the lease or of the generation at each later check, without a floor task |
| `ShiftEntryLease.StationRefs.constructor` | apps/station/src/App.tsx:466-471 | a station starts free, possibly with a reloaded task |
| `ShiftEntryLease.StationRefs.AcquireShiftEntry` | apps/station/src/App.tsx:1226-1242 | up to its await the handler takes the slot exactly when no entry and no task is active |
| `ShiftEntryLease.StationRefs.CancelUpdateSettled` | apps/station/src/App.tsx:1243-1251 | after its await it hands out the lease only if it is still current, and otherwise releases it |
| `ShiftEntryLease.StationRefs.ReleaseLease` | apps/station/src/App.tsx:1233-1240 | a release clears the slot only of its own lease, and only once |
| `ShiftEntryLease.StationRefs.HandleEntered` | apps/station/src/App.tsx:1729-1736 | the first stretch goes on exactly under a current lease and generation |
| `ShiftEntryLease.StationRefs.ContinueEntry` | apps/station/src/App.tsx:1735-1811 | each stretch between two awaits leads to the next await, or ends the handler, as the machine says, for shifts and inventories |
| `ShiftEntryLease.StationRefs.AwaitRejected` | apps/station/src/App.tsx:1735-1811 | a rejected await ends the handler and changes nothing else |
| `ShiftEntryLease.StationRefs.LeaveTask` | apps/station/src/App.tsx:2196-2206 | an exit clears the floor task; only that of a shift moves the entry generation on |
| `ShiftEntryLease.StationRefs.FinishEntry` | apps/station/src/App.tsx:1808-1822 | the last stretch publishes the floor task entered, or nothing |
| `ShiftEntryLease.StationRefs.OnCredentialRejected` | apps/station/src/App.tsx:900-922 | a rejection of the current generation clears the floor task and moves the entry generation on; others change nothing |
| `ShiftEntryLease.StationRefs.OnDrain` | apps/station/src/App.tsx:994-997 | a drain releases whatever lease is current |
| `LegalRegistry.ValidateLegalRegistry` | packages/legal-documents/src/registry.ts:396-464 | the validator accepts exactly the lists that the declarative specification allows, and the defect an error names is really there |
| `LegalRegistry.AssertLocaleRoutes` | packages/legal-documents/src/registry.ts:371-394 | the route check accepts exactly the complete, internal, language-matched routes |
| `LegalRegistry.CheckSupersedes` | packages/legal-documents/src/registry.ts:441-453 | the second loop passes exactly when every reference names an older release of the list |
| `LegalRegistry.OlderIff` | packages/legal-documents/src/registry.ts:441-453 | for releases with valid revisions, one is older exactly when its rank, made of year, month and sequence, is smaller |
| `LegalRegistry.RevisionTextIff` | packages/legal-documents/src/identity.ts:16-41 | which texts are revisions and of what: four digits, a month 01 to 12 and a sequence 01 to 99 |
| `LegalRegistry.IncludesIff` | packages/legal-documents/src/registry.ts:371-394 | the search for a part of a text finds it exactly where it occurs |
| `LegalRegistry.ShippedReleasesAreAccepted` | packages/legal-documents/src/registry.ts:276-287 | the consent releases of the shipped registry, 2026.10/01 for 2026.08/01, are accepted |
| `LegalRegistry.KeyRevision` | packages/legal-documents/src/registry.ts:448-449 | the revision cut out of a release key is that of the release |
| `LegalRegistry.ReplacedIsOlder` | packages/legal-documents/src/registry.ts:356-369 | in an accepted list a superseded release has a smaller revision |
| `LegalRegistry.ChainsDecrease` | packages/legal-documents/src/registry.ts:443-453 | along every chain of references the revisions strictly decrease |
| `LegalRegistry.ReplacementIsAcyclic` | packages/legal-documents/src/registry.ts:443-453 | no chain of references meets a release twice, so none is longer than the list |
| `LegalRegistry.FoundReleaseIsUnique` | packages/legal-documents/src/registry.ts:466-474 | in an accepted list, finding by code, or by code and revision, finds the only match |
| `LegalRegistry.EffectiveDateIff` | packages/legal-documents/src/identity.ts:48-62 | an effective date is accepted exactly when it is a calendar date of the year 100 or later |
| `LegalRegistry.YearFiftyIsRefused` | packages/legal-documents/src/identity.ts:52-59 | a calendar date of the year 50 is refused |

## Left out

- PostgreSQL, drizzle and SQL texts: a statement is its effect on the modelled schema; hashes, statement counts of the
  migration files, timeouts and logging are not modelled, and setting a timeout is a query without effect.
- A statement that fails because of the data in the tables appears only as a failure the environment causes.
- `RuntimeMigrate.Session.RunRuntimeMigrations`: starts after the connection is made, and its wait for the lock is not
  interleaved with other sessions: a lock held by another session ends in the lock timeout.
- The statements of one migration file in a batch are one query of the model; they share a transaction, so a failure
  between two of them is a failure of the whole.
- Ordinary migrations are opaque: each must run once and in order, and creates what the special ones need.
- Packages in which the special migrations stand in another order than they were written: only how a run cuts such a
  package is proved, not what it does to the database.
- The parsing of ISO instants and the time-zone table: instants are numbers of milliseconds with a range check, and the
  zone is a function.
- The display of years before year 1 without their era: for local times of the first 48 hours of year 1 some probes fall
  into such years, and the model gives them the year that follows from their date.
- Lone surrogates: strings hold Unicode scalar values only, so the patterns that refuse surrogates have nothing to refuse.
- File names and their sanitising, labels, MIME types, and line limits that are not integers.
- A reader for pallets-mode TXT files: loose boxes after the last pallet cannot be told from its members
  (`LooseBoxesLookLikeMembers`); `TxtFilesSpellSource` says what the files hold instead.
- The reload of a persisted inventory task is a possible starting state of the station, not an event.
- Hooks, rendering, hardware, synchronisation and the updater of the station: only the refs that the entry handlers
  read and write are modelled.
- Tax policy, document contents of the registry, and the shapes of the contract schemas: short or finite.
