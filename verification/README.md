# Verification of the ISP back office

A Dafny model of the parts of the back office that keep invariants over unbounded data and
unbounded runs, with proofs about them. `dafny verify dfyconfig.toml` covers all files.

## What is modelled

| file | models |
|---|---|
| `Text.dfy`, `Wrappers.dfy` | the pieces of JavaScript text handling the other files share, and `Option` and `Result` |
| `BillingDate.dfy` | day arithmetic over `YYYY-MM-DD` texts, down to the Gregorian calendar of section 21.4.1 of ECMA-262 |
| `BillingCycle.dfy`, `BillingAmounts.dfy` | the recurring invoice, the prorated first invoice and their taxes; what every row charges |
| `SuspensionHistory.dfy`, `Morosidad.dfy`, `MorosidadTurn.dfy`, `MorosidadOperations.dfy`, `MorosidadLaws.dfy`, `MorosidadRuns.dfy` | the delinquency cycle, reminders, the operator's list, payments, everything else that sets the status of a contract, and suspension episodes; what one turn and one operation do, laws of one cycle, and of whole runs |
| `Invoicing.dfy`, `InvoicingDocuments.dfy` | the allocator of fiscal numbers, emission, settlement, credit notes, voiding and range edits |
| `RefreshTokens.dfy`, `RefreshTokenChains.dfy` | rotation of refresh tokens with a grace window and reuse detection, the pattern of section 5.2.2.3 of RFC 6819 |
| `TenantConnections.dfy` | the cache of tenant connections with opens in flight |
| `NetworkProvisioning.dfy` | the status of a network access and its audit log |
| `DhcpProvisioning.dfy` | suspension and restoration on a router with leases, queues and address lists |
| `CsvBuilder.dfy`, `SmartFileParser.dfy`, `CsvRoundTrip.dfy`, `SeparatedFiles.dfy` | the CSV printer (quoting of section 2 of RFC 4180) and the tolerant reader |
| `MoneyParser.dfy` | the reader of amounts with US or European separators |
| `CrmCatalogs.dfy` | codes made from names, and unique codes |
| `MacMatching.dfy` | finding a device by a serial number that may be a MAC address |
| `AgentRotation.dfy` | the round robin of agents |

Services that change state are classes whose methods say what the new state is as a function of the old
one; the laws are lemmas about those functions and about runs of them.

## Conventions

- A repository is a map or a sequence, and one service call is one atomic step. Opening a tenant
  connection is the exception: request, completion and failure are separate steps.
- What comes from outside is a parameter: which saves or calls fail, what the network and the router
  answer, whether a signature is good, whether a user is active, the clock.
- Token hashes, family ids and invoice ids are fresh numbers. The clock does not go back.
- The lifetime of a refresh token is read from the configuration at each issue, so every login and rotation of a
  run has its own.
- Amounts are whole cents and tax rates whole percents, as the columns hold them; rounding is half up.
  Amounts read from text are exact decimals.
- The unique index of migrations 020 and 030 lets at most one invoice per contract and period be other
  than VOIDED. The index on fiscal numbers lets an invoice number occur once.
- `normalizeHeader` is an arbitrary function, and names for codes are taken as they are after accents are
  stripped and letters upper-cased, so what is proved holds whatever those steps do.
- Regular expressions match with their usual meaning, without regard to case where the query asks for it.

## Where the code and its documentation differ

The model follows the code. Each difference is a lemma.

- The amount reader promises to tolerate thousands separators, but a whole amount written with them and
  without decimals is misread: 1,600 becomes 1.6 (`MoneyParser.ReadsWholeExactly`).
- The CSV printer quotes line breaks inside cells, but the reader splits lines before it looks at quotes
  (`CsvRoundTrip.DataLineCount`, `CsvRoundTrip.RoundTripExactly`).
- The connection cache is meant to evict the least recently used tenant. It has a branch for cached connections
  destroyed by someone else, and there a tenant keeps its old place when it is opened again
  (`TenantConnections.ReopenedKeepsPlace`, `TenantConnections.ReopenedOutOfOrder`). That is hypothetical: nothing
  in this repository destroys a connection the manager handed out. With a limit below 1 a connection is
  destroyed before it is handed out (`TenantConnections.CompletedIsLive`).
- Unique codes may need one suffix more than there are codes (`CrmCatalogs.OneSuffixTooMany`). That is hypothetical:
  the input is a table whose codes are all suffixed forms of one base, while migration 046 seeds both tables with
  codes that end in a letter and the service never deletes rows. With any such code in the table the number of
  suffixes stays within the number of codes (`CrmCatalogs.GenerateUniqueCode`).
- The first invoice is said to be prorated when the start is not the first of a month, but under FIXED_30 a
  start on the first of February is prorated too, and one on the second of a month of 31 days is not
  (`BillingCycle.WholeCycleExactly`).
- A reminder goes out before its mark is saved, so a failing save repeats it
  (`MorosidadLaws.RepeatsExactlyOnFailedSave`).
- A counter sale turns a suspended contract active without closing its episode, so a second suspension opens
  another (`MorosidadRuns.SaleLeavesEpisodeOpen`); an import that changes a suspended contract or makes a suspended
  one, and a failing save of an episode, also leave contracts and episodes in disagreement
  (`MorosidadRuns.EpisodesKeptExactly`).
- Restoring enables the first lease of a MAC only (`DhcpProvisioning.AllEnabledExactly`), and answers ok when
  the address could not be taken off the list (`DhcpProvisioning.RestoredMeans`).
- Dates of the years 0 to 99 are read as 1900 to 1999 (`BillingDate.ParseUndoesPrint`), and comparing dates as
  strings is right exactly on ranges of years whose first and last have as many digits
  (`BillingDate.StringOrderExactly`).
- The grace window is meant for a token rotated just now, but it counts from the last stamp, and logging out a
  token stamps it again: a rotated token long past the window is accepted once more right after a logout of it
  (`RefreshTokens.LogoutReopensWindow`, `RefreshTokens.LogoutThenRefresh`).
- A token that expires before the one it replaces, as after shortening the lifetime, lets a cleanup leave a
  successor pointer without a token (`RefreshTokenChains.ShorteningDanglesExactly`,
  `RefreshTokenChains.ShorterLifetimeDangles`).
- A range that ran out can be neither activated nor deactivated (`Invoicing.ExhaustedRangeIsFrozen`).
- A range set back to a number in use is accepted and then stuck (`Invoicing.RewindingSticks`,
  `Invoicing.RewoundSequenceIsStuck`).
- Only texts in the shape of a MAC are meant to be searched as one, and manufacturers' serials never to be; any text
  with exactly twelve hexadecimal digits among its characters is, such as HWTC01234567891
  (`MacMatching.AcceptedExactly`, `MacMatching.SerialTakenForMac`).
- The round robin starts over with the least agent when the last one has left, so an active agent may wait
  for ever (`AgentRotation.ComesNearerExactly`, `AgentRotation.AlwaysPassedOver`).

## Model

| member | source | states |
|---|---|---|
| CsvBuilder.PrintRowsAreLines | src/common/utils/csv-builder.util.ts:20-24 | Every row prints as the line of its own cell texts, null and missing values as empty cells. |
| SmartFileParser.SplitDelimitedLine | src/common/utils/smart-file-parser.util.ts:41-70 | The quote automaton with its look-ahead and index skip computes the recursive reading of the line, every cell trimmed. |
| SmartFileParser.DetectDelimiter | src/common/utils/smart-file-parser.util.ts:72-85 | The delimiter chosen is the first of tab, semicolon and comma that no candidate beats in recognized headers. |
| SmartFileParser.BestIsUnique | src/common/utils/smart-file-parser.util.ts:72-85 | Only one delimiter can be the best one in that sense, so the choice is determined. |
| SmartFileParser.MapCellsToRows | src/common/utils/smart-file-parser.util.ts:87-115 | Rows keep their order, are numbered from 2 and hold each known column under its field; too few recognized headers is the only error. |
| SmartFileParser.ParseSmartCsv | src/common/utils/smart-file-parser.util.ts:118-133 | The whole reader: lines that are blank are dropped before the header is taken, no line left is an error. |
| CsvRoundTrip.ScanEscaped | src/common/utils/csv-builder.util.ts:6-13 | Reading a printed cell gives back exactly its text, whatever quotes, commas or line breaks it holds. |
| CsvRoundTrip.CellsOfPrintedLine | src/common/utils/smart-file-parser.util.ts:41-70 | A printed line reads back as its cells, trimmed, with a leading byte-order mark dropped. |
| CsvRoundTrip.CommaWins | src/common/utils/smart-file-parser.util.ts:72-85 | On the header line of a printed table the comma beats tab and semicolon, and all headers are recognized. |
| CsvRoundTrip.QuoteBreakQuoteIsTwoLines | src/common/utils/smart-file-parser.util.ts:123 | A text with a line break between two quotes is always cut into at least two lines, quoted or not. |
| CsvRoundTrip.DataLineCount | src/common/utils/smart-file-parser.util.ts:123-130 | The reader sees as many data lines as rows if and only if no cell holds a line break. |
| CsvRoundTrip.ParsedTable | src/common/utils/smart-file-parser.util.ts:118-133 | For every table with known headers the outcome is known whatever the cells hold; a minimum above the number of columns is the only failure. |
| CsvRoundTrip.RoundTrip | src/common/utils/smart-file-parser.util.ts:118-133 | Without line breaks in cells, reading the printed table gives all rows in order with exactly their trimmed cells and nothing else. |
| CsvRoundTrip.RoundTripExactly | src/common/utils/csv-builder.util.ts:20-27 | Print and read is the identity if and only if every cell is without line breaks and without outer white space. |
| SeparatedFiles.SeparatorDetected | src/common/utils/smart-file-parser.util.ts:72-85 | Whichever of tab, semicolon and comma is between two or more known headers is the one detected, and no other. |
| SeparatedFiles.SeparatedFile | src/common/utils/smart-file-parser.util.ts:118-133 | Such a file is read with its own separator whatever its line breaks: one row per line that is not blank, in order; too high a minimum is the only failure. |
| SeparatedFiles.SeparatedTable | src/common/utils/smart-file-parser.util.ts:118-133 | A table written with any of the three separators comes back row by row, every cell trimmed under its field; only rows of nothing but blanks between tabs are dropped. |
| SeparatedFiles.EmptyExactly | src/common/utils/smart-file-parser.util.ts:123-126 | A file is refused as empty if and only if it holds nothing but white space. |
| SeparatedFiles.RecordExactly | src/common/utils/smart-file-parser.util.ts:104-113 | Whatever the number of its cells, a line gives exactly the fields of the known columns, each with the trimmed cell of the last column that fills it, or empty when the line is too short. |
| MoneyParser.ParseMoneyAmount | src/common/utils/smart-file-parser.util.ts:200-219 | The amount read is never negative, whatever the text. |
| MoneyParser.SymbolsAreSilent | src/common/utils/currency.util.ts:7-19 | No symbol of the table contains a character the reader keeps. |
| MoneyParser.ReadsDecimals | src/common/utils/smart-file-parser.util.ts:200-219 | Any number with thousands separators and decimals of any length, US or European, among text without digits and separators, is read as the number it denotes. |
| MoneyParser.ReadsCents | src/common/utils/smart-file-parser.util.ts:200-219 | Every amount in cents with two decimals behind any symbol of the table is read back exactly, in both styles. |
| MoneyParser.ReadsWholeExactly | src/common/utils/smart-file-parser.util.ts:200-219 | A whole amount with thousands separators and no decimals is read right if and only if it is below a thousand. |
| MoneyParser.OnlyKeptMatter | src/common/utils/smart-file-parser.util.ts:202-203 | Everything but digits, commas, points and hyphens is without effect on the amount. |
| MoneyParser.ReadsPlainWhole | src/common/utils/smart-file-parser.util.ts:200-219 | Every whole amount written without separators is read as itself. |
| MoneyParser.ReadsPlainDecimals | src/common/utils/smart-file-parser.util.ts:213-215 | So is every one with decimals behind a point or a comma. |
| MoneyParser.UnreadableIsZero | src/common/utils/smart-file-parser.util.ts:198-219 | A text without digits is read as 0. |
| MoneyParser.NegativeIsZero | src/common/utils/smart-file-parser.util.ts:217-218 | An amount behind a minus sign is read as 0. |
| BillingDate.DayFromYearClosedForm | src/modules/billing/billing-date.util.ts:27-30 | Counting years one by one gives the closed formula of ECMA-262 for the day a year begins on, for all years. |
| BillingDate.MonthStartTable | src/modules/billing/billing-date.util.ts:27-30 | Cumulated month lengths are the table of ECMA-262, for common and leap years. |
| BillingDate.DateOf | src/modules/billing/billing-date.util.ts:33-40 | Every day number denotes a valid calendar date. |
| BillingDate.DateOfInverse | src/modules/billing/billing-date.util.ts:33-40 | The date of a day number has that day number. |
| BillingDate.DateOfDayNumber | src/modules/billing/billing-date.util.ts:27-30 | A valid date is the date of its day number: dates and day numbers correspond one to one. |
| BillingDate.DayNumberOrder | src/modules/billing/billing-date.util.ts:21-25 | An earlier date by year, month and day has the smaller day number. |
| BillingDate.PlusDaysSteps | src/modules/billing/billing-date.util.ts:33-40 | Adding zero days changes nothing and adding one more day gives the next calendar date, across months, leap days and years. |
| BillingDate.PlusDaysLaws | src/modules/billing/billing-date.util.ts:21-40 | The distance of a date moved by a days is a, and moving by a and then b is moving by their sum, for all integers. |
| BillingDate.PlusDaysShifts | src/modules/billing/billing-date.util.ts:21-40 | Moving a date moves its distance to any third date by as much. |
| BillingDate.PlusDaysBetween | src/modules/billing/billing-date.util.ts:21-40 | A date moved by its distance to another one is that other one. |
| BillingDate.ParseUndoesPrint | src/modules/billing/billing-date.util.ts:14-30 | Reading a printed date gives its day number if and only if the year is not below 100, where JavaScript adds 1900. |
| BillingDate.TextRefinesCalendar | src/modules/billing/billing-date.util.ts:21-40 | On printed dates the text operations compute what the calendar operations do. |
| BillingDate.AddDaysTextLaws | src/modules/billing/billing-date.util.ts:21-40 | The laws of adding days hold for the texts themselves. |
| BillingDate.StringOrderIsDateOrder | src/modules/billing/billing-date.util.ts:14-25 | On dates whose years have as many digits string order is date order, the sign of the distance in days. |
| BillingDate.StringOrderExactly | src/modules/billing/billing-date.util.ts:14-25 | String order is date order on a range of years if and only if its first and last year have as many digits. |
| BillingDate.FourDigitYears | src/modules/billing/billing-date.util.ts:14-25 | String order is date order on all four-digit years, and on no range that begins with 999 and goes on to 1000 or later. |
| BillingDate.StringOrderFailsAt | src/modules/billing/billing-date.util.ts:14-18 | For every number of digits the last day of the last such year comes after the next day in string order. |
| BillingDate.StringOrderFailsBefore1000 | src/modules/billing/billing-date.util.ts:14-18 | A concrete pair of neighbouring dates that string order swaps, the case of three digits. |
| BillingDate.DaysInMonthIsLength | src/modules/billing/billing-date.util.ts:4-6 | Day 0 of the next month is the last day of this one, December included. |
| BillingDate.UtcDate.SetUTCDate | src/modules/billing/billing-date.util.ts:35 | Setting the day of the month in place moves the date by the difference, over month ends. |
| BillingDate.AddDays | src/modules/billing/billing-date.util.ts:33-40 | The in-place algorithm computes the specified text for every input, malformed text included. |
| BillingDate.CountedDaysAreMonthDays | src/modules/billing/billing-date.util.ts:52-62 | Over a calendar month both policies that count real days give the length of the month. |
| BillingCycle.CycleDays | src/modules/billing/billing-cycle.service.ts:203-204 | The days of the cycle are 30 or the length of the month, for every start date and policy. |
| BillingCycle.EffectiveDays | src/modules/billing/billing-cycle.service.ts:204-208 | The days charged are those left in the month, at least 1 and never more than the cycle has. |
| BillingCycle.BillingCycleService.GenerateInvoiceForContractIfDue | src/modules/billing/billing-cycle.service.ts:102-181 | Adds the invoice of the period exactly on the billing day, when none of the period blocks it and the save does not throw; tells skipped from failed, where a row found first wins over a failing save. |
| BillingCycle.BillingCycleService.RunBillingCycle | src/modules/billing/billing-cycle.service.ts:66-95 | Goes over all active contracts whatever fails; generated is the growth of the table, failed the saves that threw, and the three counters add up to the active contracts. |
| BillingCycle.NoFailures | src/modules/billing/billing-cycle.service.ts:80-88 | When no save throws the cycle counts no failure. |
| BillingCycle.BillingCycleService.GenerateInitialProratedInvoiceIfNeeded | src/modules/billing/billing-cycle.service.ts:194-277 | Adds the prorated first invoice unless the period is billed already, and returns nothing exactly then. |
| BillingCycle.OneBillingDay | src/modules/billing/billing-cycle.service.ts:107-112 | In every month exactly one day passes the guard for a billing day of 1 to 31: that day, or the last of a shorter month. |
| BillingCycle.PeriodsTile | src/modules/billing/billing-cycle.service.ts:114-116 | Billing periods tile the calendar: every day, the due date included, lies in exactly one, and the next begins the day after. |
| BillingCycle.InvoicesCoverTheirMonth | src/modules/billing/billing-cycle.service.ts:114-160 | Recurring and first invoices cover exactly one calendar month, from its first to its last day, and fall due inside it, on the billing day or the start date. |
| BillingCycle.NeverTwoInvoices | src/modules/billing/billing-cycle.service.ts:66-277 | In every run of cycles, first invoices and status changes, with any saves failing, no contract has two invoices of a period that are not voided. |
| BillingCycle.StepBills | src/modules/billing/billing-cycle.service.ts:66-277 | One event bills a period, keeps it billed, or unbills it: exactly a cycle on its billing day whose save does not throw or its first invoice bills it, and exactly voiding its invoice undoes that. |
| BillingCycle.BilledExactly | src/modules/billing/billing-cycle.service.ts:66-277 | In every run of cycles over changing contracts, first invoices, payments and voidings, a period is billed if and only if some event billed it and its invoice was not voided since; failures of other contracts make no difference. |
| BillingCycle.CountIsOne | src/modules/billing/billing-cycle.service.ts:118-123 | Under that uniqueness the number of invoices of a period that count is 1 if billed and 0 if not. |
| BillingCycle.EveryDayBillsOnce | src/modules/billing/billing-cycle.service.ts:66-277 | In every run with cycles on all days of a month, repeated and in any order, among any changes of other contracts, first invoices, payments and other voidings, a contract those cycles find active has exactly one invoice of that month. |
| BillingCycle.ProratedWithinPrice | src/modules/billing/billing-cycle.service.ts:203-212 | The first invoice charges between nothing and the monthly price, and the full price when all days of the cycle are charged. |
| BillingCycle.WholeCycleExactly | src/modules/billing/billing-cycle.service.ts:203-209 | All days of the cycle are charged if and only if the start is the first of the month, or under FIXED_30 if 30 days are left. |
| BillingCycle.FirstNeverExceedsRecurring | src/modules/billing/billing-cycle.service.ts:203-218 | The first invoice never costs more than the recurring one, and is equal to it in all amounts when the whole cycle is charged. |
| BillingCycle.EarlierNeverCheaper | src/modules/billing/billing-cycle.service.ts:203-218 | Within a month an earlier start never costs less, before and after taxes. |
| BillingCycle.TaxedMono | src/modules/billing/tax-calculation.service.ts:64-71 | With rounding half up per tax, a larger subtotal never has a smaller total. |
| BillingAmounts.FirstIs | src/modules/billing/billing-cycle.service.ts:194-240 | The first invoice charges the nearest cent, half up, of the price times the days left in the month (30 at most under FIXED_30) over the days of the cycle; each tax is its own percentage of that to the nearest cent; and the total is the sum of all four. |
| BillingAmounts.CycleCharges | src/modules/billing/billing-cycle.service.ts:102-150 | Every row a cycle adds is the invoice of an active contract whose day it is: the monthly price, ITBIS, CDT and ISC each by its own rate to the nearest cent, all of them in the total, for the calendar month and due that day; rows before it are not touched. |
| BillingAmounts.EveryRowIsCharged | src/modules/billing/billing-cycle.service.ts:66-277 | In every run of cycles, first invoices, payments and voidings every row charges in one of these two ways, for a contract of the event it comes from. |
| BillingAmounts.OutcomeExactly | src/modules/billing/billing-cycle.service.ts:102-181 | On its day a contract fails if and only if its save throws and the first row of the period is missing or voided, and is invoiced if and only if its save does not throw and every row of the period is voided; otherwise it is skipped. |
| BillingAmounts.CountersExactly | src/modules/billing/billing-cycle.service.ts:66-95 | The failures counted are exactly the active contracts of that kind in the table the cycle found, whatever it added for others, and every active contract is counted. |
| SuspensionHistory.OpenedCount | src/modules/billing/suspension-history.service.ts:36-48 | Opening adds one open episode to that contract and none to the others. |
| SuspensionHistory.ClosedCount | src/modules/billing/suspension-history.service.ts:56-73 | Closing ends exactly one open episode of that contract when there is one, and none of any other. |
| SuspensionHistory.ClosedKeepsRows | src/modules/billing/suspension-history.service.ts:56-73 | Closing never reopens an episode nor moves one to another contract. |
| SuspensionHistory.ClosedExactly | src/modules/billing/suspension-history.service.ts:56-73 | Closing marks exactly the most recent open episode of the contract and leaves every other row as it was. |
| Morosidad.BackOffice.CloseSuspension | src/modules/billing/suspension-history.service.ts:56-73 | Closes the most recent open episode and leaves the table alone when there is none. |
| Morosidad.BackOffice.SendReminder | src/modules/billing/morosidad.service.ts:484-508 | The reminder is announced before the save, so also when the save fails. |
| Morosidad.BackOffice.ProcessInvoice | src/modules/billing/morosidad.service.ts:157-217 | One turn of the loop: ages the invoice, announces at most one reminder, and asks for a cut only if nothing failed. |
| Morosidad.BackOffice.ProcessInvoices | src/modules/billing/morosidad.service.ts:157-225 | The loop over open invoices, with a failed one counted and passed over. |
| Morosidad.BackOffice.SuspendContract | src/modules/billing/morosidad.service.ts:510-549 | A contract becomes suspended unless the call raises or the device is offline; its episode is opened unless saving it fails, which raises after the contract was saved. |
| Morosidad.BackOffice.SuspendContracts | src/modules/billing/morosidad.service.ts:227-238 | Contracts whose call does not raise are counted as suspended, offline ones among them. |
| Morosidad.BackOffice.RunMorosidadCycle | src/modules/billing/morosidad.service.ts:141-246 | The cycle as a whole, with its four counters. |
| Morosidad.BackOffice.ReactivateIfSettled | src/modules/billing/morosidad.service.ts:252-294 | Restores exactly a suspended contract without overdue open invoices, and closes its episode unless that save fails. |
| Morosidad.BackOffice.GroupOverdue | src/modules/billing/morosidad.service.ts:303-331 | Groups exactly the overdue open invoices by contract, in order. |
| Morosidad.BackOffice.LongestDelay | src/modules/billing/morosidad.service.ts:349-365 | Finds the longest delay and the date it was due. |
| Morosidad.BackOffice.GetDelinquents | src/modules/billing/morosidad.service.ts:299-372 | Lists exactly the contracts with overdue open invoices, with grace, delay and scheduled day. |
| Morosidad.BackOffice.SuspendManually | src/modules/clients/clients.service.ts:527-579 | Only an active contract, and only if the network call does not throw; the episode follows, unless its save fails. |
| Morosidad.BackOffice.ReactivateContract | src/modules/clients/clients.service.ts:581-619 | Only a suspended contract; its episode is closed, unless that save fails. |
| Morosidad.BackOffice.TerminateContract | src/modules/clients/clients.service.ts:626-645 | Any contract that is not terminated; an open episode stays open. |
| Morosidad.BackOffice.UpdateContract | src/modules/clients/clients.service.ts:493-510 | Sets or clears the override of the grace of a contract and changes nothing else the model knows of. |
| Morosidad.BackOffice.Checkout | src/modules/pos/pos.service.ts:105-119 | A sale on a suspended contract makes it active; its episode is not looked at. |
| Morosidad.BackOffice.ImportRow | src/modules/clients/import/clients-import.processor.ts:296-312 | A contract that is not terminated takes the imported status, a missing one is made with it; no episode is written. |
| Morosidad.BackOffice.HandleTicketResolved | src/modules/coordination/coordination.service.ts:22-29 | Only a contract that waits for its installation becomes active. |
| MorosidadTurn.TurnAnnouncesExactly | src/modules/billing/morosidad.service.ts:157-204 | Whatever saves fail, an advance reminder goes out if and only if the invoice is open, unmarked and due in 0 up to the days set, and an overdue one if and only if it is open, unmarked, overdue and by no less than the days set. |
| MorosidadTurn.StoredExactly | src/modules/billing/morosidad.service.ts:176-217 | A row whose save fails stays as it was; otherwise it holds the time of the reminder announced and, when overdue, its days, VENCIDA or EN_GRACIA by its grace, and from the first change on its grace period; nothing else of it changes. |
| MorosidadTurn.FailedExactly | src/modules/billing/morosidad.service.ts:157-225 | A turn fails if and only if the save of the invoice fails and is needed: a reminder is due, or the days or the status of an overdue invoice are not those of today. |
| MorosidadOperations.ManuallySuspendedExactly | src/modules/clients/clients.service.ts:527-579 | Status by status: not found, wrong status, refused by the network, or suspended with one more open episode at the end; when that is not saved the contract is suspended all the same. |
| MorosidadOperations.ManuallyReactivatedExactly | src/modules/clients/clients.service.ts:581-619 | The same of a reactivation, which makes a suspended contract active and closes its most recent open episode. |
| MorosidadOperations.ReactivatedIfSettledExactly | src/modules/billing/morosidad.service.ts:252-294 | A payment makes exactly a suspended contract without an open overdue invoice active and closes its most recent open episode; in every other case it answers no and changes nothing. |
| MorosidadOperations.CutExactlyBy | src/modules/billing/morosidad.service.ts:510-549 | What each answer of the network makes of the contract and its episodes. |
| MorosidadOperations.StatusChangesExactly | src/modules/clients/clients.service.ts:626-645 | For terminations, counter sales, installations and imports, the status before decides the status after, and no episode, invoice or reminder changes. |
| MorosidadOperations.OverridesExactly | src/modules/clients/clients.service.ts:506-510 | A new contract is active with the grace given, and setting an override changes nothing else. |
| MorosidadOperations.DelinquentsExactly | src/modules/billing/morosidad.service.ts:299-372 | A contract is listed if and only if it has an open overdue invoice, whatever its status, with that status, its own grace or the general one, its longest delay, the number of such invoices, and the day on which that delay reaches the grace. |
| MorosidadLaws.MaxDelayIsMaximum | src/modules/billing/morosidad.service.ts:349-365 | The longest delay is attained by an overdue invoice, bounds all of them, and is positive exactly when there is one. |
| MorosidadLaws.CutsExactly | src/modules/billing/morosidad.service.ts:157-217 | Without failing saves a pass cuts exactly the active contracts whose longest delay has reached their grace, each with that delay. |
| MorosidadLaws.CutsUnderFailures | src/modules/billing/morosidad.service.ts:157-217 | Whatever saves fail, a pass cuts exactly the active contracts with an overdue open invoice that has reached its grace and whose save goes through or is not needed, with the longest delay of such an invoice. |
| MorosidadLaws.OrderListsCuts | src/modules/billing/morosidad.service.ts:206-215 | Each contract to cut is listed once, whatever fails. |
| MorosidadLaws.CutInOrder | src/modules/billing/morosidad.service.ts:206-238 | Contracts are cut in the order in which the pass comes upon the first invoice that has each cut. |
| MorosidadLaws.WorstIsFirst | src/modules/billing/morosidad.service.ts:211-214 | The cut of a contract names its most delayed invoice, the first of several. |
| MorosidadLaws.GroupDelay | src/modules/billing/morosidad.service.ts:349-367 | The delay and date of the operator's list are those of the longest delay. |
| MorosidadLaws.CycleAgreesWithList | src/modules/billing/morosidad.service.ts:141-246 | The contracts a cycle cuts on a day are exactly the active ones the operator's list schedules for that day or earlier, with the same days overdue. |
| MorosidadLaws.OnlyOverdueAreCut | src/modules/billing/morosidad.service.ts:179-217 | No contract without an overdue open invoice is cut, even when saves fail. |
| MorosidadLaws.RestoredIsNotCut | src/modules/billing/morosidad.service.ts:252-294 | A contract a payment restores is not cut by a cycle of the same day, whatever fails in it. |
| MorosidadLaws.CutTakesEffect | src/modules/billing/morosidad.service.ts:510-549 | Among the contracts to cut exactly those whose service is cut become suspended, their episode saved or not, and no other contract changes its status. |
| MorosidadLaws.CounterExactly | src/modules/billing/morosidad.service.ts:227-238 | The counter of suspended contracts is the number of those suspended if and only if as many devices were offline as episodes failed to be saved: the first are counted, the second are not. |
| MorosidadLaws.RemindersAreCounted | src/modules/billing/morosidad.service.ts:170-204 | Without failing saves the two reminder counters are the numbers of reminders announced of each kind. |
| MorosidadLaws.CycleAnnouncesExactly | src/modules/billing/morosidad.service.ts:141-225 | Whatever fails in it, a cycle announces exactly the reminders that are due on some invoice. |
| MorosidadLaws.CountersExactly | src/modules/billing/morosidad.service.ts:157-225 | Whatever saves fail, the counters are the numbers of invoices whose reminder was due and could be marked and of those whose save was needed and failed, and one reminder goes out per invoice and kind due. |
| MorosidadLaws.GracePeriodExactly | src/modules/billing/morosidad.service.ts:184-195 | The grace period stored runs from the first day an invoice is overdue to the first day it is VENCIDA, for every day compared with it. |
| MorosidadLaws.TurnKeeps | src/modules/billing/morosidad.service.ts:157-217 | A pass never changes the contract or due date of an invoice, nor a grace period or reminder mark once set, whatever fails. |
| MorosidadLaws.PassTwice | src/modules/billing/morosidad.service.ts:157-225 | A second pass over what a pass stored changes no invoice, announces nothing and fails nowhere, also when contracts were suspended in between. |
| MorosidadLaws.SecondRunIsQuiet | src/modules/billing/morosidad.service.ts:141-246 | A second cycle on the same day changes no invoice and sends no reminder, whatever the network answers in either. |
| MorosidadRuns.EveryRunKeepsEpisodes | src/modules/clients/clients.service.ts:527-645 | Over every interleaving of cycles, payments, manual operations, terminations, sales, imports and installations without a harmful one, no contract has two open episodes; an active one has none and a suspended one exactly one. |
| MorosidadRuns.EpisodesStepExactly | src/modules/billing/morosidad.service.ts:510-549 | From such a state an event leads out of it if and only if it is harmful: a service cut or restored whose episode is not saved, a sale that meets a suspended contract, or an import that makes a contract suspended or a suspended one anything but terminated. |
| MorosidadRuns.EpisodesKeptExactly | src/modules/pos/pos.service.ts:105-119 | The claim holds all along a run if and only if no event of it is harmful. |
| MorosidadRuns.SaleLeavesEpisodeOpen | src/modules/pos/pos.service.ts:115-117 | From every such state an active contract suspended, sold to at the counter and suspended again has two open episodes. |
| MorosidadRuns.EveryRunRemindsOnce | src/modules/billing/morosidad.service.ts:484-508 | Over every run without failing saves each invoice gets each kind of reminder at most once. |
| MorosidadLaws.RepeatsExactlyOnFailedSave | src/modules/billing/morosidad.service.ts:484-508 | A reminder just announced is announced again the same day if and only if saving its mark failed. |
| MorosidadRuns.EveryRunAgesRightly | src/modules/billing/morosidad.service.ts:179-203 | In every run from empty tables with fixed settings and with any fixed override on each contract, whose cycles do not go back in time, among any other events and failing saves, an invoice is VENCIDA only while its delay has reached the grace of its contract. |
| MorosidadRuns.VencidaStays | src/modules/billing/morosidad.service.ts:179-203 | In every such run an invoice that is VENCIDA at some point is VENCIDA, settled or voided at every later one, never EN_GRACIA again. |
| MorosidadRuns.TurnBackExactly | src/modules/billing/morosidad.service.ts:179-203 | A cycle takes a VENCIDA invoice back to EN_GRACIA if and only if it is overdue, short of the grace then in force, and its save goes through; otherwise it stays VENCIDA. |
| MorosidadRuns.OnwardExactly | src/modules/clients/clients.service.ts:506-508 | Whatever settings and overrides are in force, an event takes no invoice back before VENCIDA if and only if it is no cycle that finds one of those. |
| MorosidadRuns.VencidaKeptExactly | src/modules/clients/clients.service.ts:506-508 | Along any run, with settings and overrides changing and days going back at will, no invoice ever goes back before VENCIDA if and only if no cycle finds one of those. |
| Invoicing.NcfTextInjective | src/modules/invoicing/invoicing.service.ts:137-139 | A printed fiscal number determines its type and its place in the sequence. |
| Invoicing.NcfTextShape | src/modules/invoicing/invoicing.service.ts:137-139 | A printed number is its type and the number in decimal, padded to ten digits for the electronic types and to eight for the others. |
| Invoicing.Transaction.GetNextNcfSequence | src/modules/invoicing/invoicing.service.ts:99-148 | Hands out the current number and advances, creating the default range; refuses an inactive or exhausted one. |
| Invoicing.Transaction.SaveInvoice | src/modules/invoicing/invoicing.service.ts:419-460 | Succeeds exactly when no invoice holds the number yet. |
| Invoicing.InvoicingService.EmitDirect | src/modules/invoicing/invoicing.service.ts:1273-1358 | Numbers and stores the new invoice, or leaves the books as they were when any step fails. |
| Invoicing.InvoicingService.SettlePendingInvoice | src/modules/invoicing/invoicing.service.ts:1364-1431 | Numbers an open invoice without changing its amounts, or leaves the books as they were. |
| Invoicing.InvoicingService.CreateCreditNote | src/modules/invoicing/invoicing.service.ts:553-701 | Adds an E34 that mirrors an issued invoice, unless it is an E34 itself, not issued, or has one already. |
| Invoicing.InvoicingService.VoidInvoice | src/modules/invoicing/invoicing.service.ts:527-539 | Voids exactly open invoices. |
| Invoicing.InvoicingService.UpdateSequence | src/modules/invoicing/invoicing.service.ts:947-1019 | Accepts an edit, of the active flag too, exactly when the current number it leads to stays inside the range it leads to. |
| Invoicing.EveryRunKeepsNumbers | src/modules/invoicing/invoicing.service.ts:99-148 | Over every run with any step of any transaction failing and any harmless edits of ranges, the numbers on issued invoices of a type are exactly start to current - 1, each on one; numbered means issued; every credit note is the only one of its original, with equal amounts. |
| Invoicing.NumbersKeptExactly | src/modules/invoicing/invoicing.service.ts:947-1019 | Those claims hold all along a run if and only if every edit of a range in it is harmless: refused, or keeping what was handed out, or finding and leaving it empty. |
| Invoicing.IssueSucceedsExactly | src/modules/invoicing/invoicing.service.ts:99-148 | Under those claims issuing succeeds if and only if the range is active and not exhausted and no step fails; the unique index never refuses a number. |
| Invoicing.FinalForever | src/modules/invoicing/invoicing.service.ts:527-539 | An issued or voided invoice is never changed again, in any run, edits of ranges included. |
| Invoicing.FailureChangesNothing | src/modules/invoicing/invoicing.service.ts:1350-1357 | Any failing step makes the operation fail, and a failed operation leaves no trace in the books. |
| Invoicing.IssuedCount | src/modules/invoicing/invoicing.service.ts:127-145 | There are as many issued documents of a type as numbers handed out. |
| Invoicing.EditKeepsCoverageExactly | src/modules/invoicing/invoicing.service.ts:947-1019 | An accepted edit of a range keeps issued numbers and range in agreement if and only if it moves neither end of what was handed out, or that was empty and stays so. |
| Invoicing.ExhaustedRangeIsFrozen | src/modules/invoicing/invoicing.service.ts:957-975 | A range that ran out refuses every edit that moves neither its current number nor its end; switching a range on or off is accepted exactly while numbers are left. |
| Invoicing.RewoundSequenceIsStuck | src/modules/invoicing/invoicing.service.ts:99-148 | From books whose next number of a type is in use no run without an edit of that range ever issues a document of the type or moves its number, and every attempt fails. |
| Invoicing.RewindingSticks | src/modules/invoicing/invoicing.service.ts:947-1019 | An accepted edit leaves a range in that state if and only if it sets the current number back to one handed out. |
| InvoicingDocuments.IssueExactly | src/modules/invoicing/invoicing.service.ts:99-148 | Issuing succeeds if and only if no step fails and the range of the type is active, has a number left and no invoice holds it; then the document has that number, the range goes on by one (a missing one begins at 1 with 500000 numbers), and no other invoice or range changes. |
| InvoicingDocuments.EmittedExactly | src/modules/invoicing/invoicing.service.ts:1273-1358 | A direct emission adds an invoice of the type asked for over the amount, with the tax given or else 18 % to the nearest cent, their sum as total, and no CDT or ISC; each refusal is told by its cause. |
| InvoicingDocuments.SettledExactly | src/modules/invoicing/invoicing.service.ts:1364-1431 | A settlement issues exactly an open invoice, with its own amounts, under the type asked for, otherwise the electronic type it had, otherwise E32, with the current number of that range. |
| InvoicingDocuments.CreditedExactly | src/modules/invoicing/invoicing.service.ts:553-701 | A credit note is issued if and only if the original is issued, is none itself, has none, the rules allow it and E34 has a number; it has the amounts of the original and names it and its number. |
| InvoicingDocuments.CreditRefusals | src/modules/invoicing/invoicing.service.ts:559-611 | Which refusal is met first. |
| InvoicingDocuments.VoidedExactly | src/modules/invoicing/invoicing.service.ts:527-539 | Voiding leaves exactly an open invoice VOIDED and changes nothing else. |
| InvoicingDocuments.EditedExactly | src/modules/invoicing/invoicing.service.ts:947-977 | An edit is accepted if and only if the current number lies in the range it leads to, and sets the fields given and no other. |
| RefreshTokens.AuthService.Login | src/modules/auth/auth.service.ts:118-164 | Begins a new family with one live token. |
| RefreshTokens.AuthService.RefreshToken | src/modules/auth/auth.service.ts:170-231 | Rotates the presented token or its live successor within the window, or revokes the family, or refuses without a change. |
| RefreshTokens.AuthService.Logout | src/modules/auth/auth.service.ts:238-245 | Stamps the token as revoked, again if it was. |
| RefreshTokens.AuthService.CleanupExpiredRefreshTokens | src/modules/auth/auth.service.ts:252-262 | Deletes exactly the tokens expired for longer than the retention. |
| RefreshTokens.AuthService.ResetPassword | src/modules/auth/auth.service.ts:376-397 | Revokes all tokens of the user. |
| RefreshTokens.SoundInEveryRun | src/modules/auth/auth.service.ts:91-262 | In every run, with lifetimes changing at will, hashes are distinct, pointers stay inside their family and lead to later tokens, and all tokens of a family but its newest are revoked. |
| RefreshTokenChains.RotationExtendsChain | src/modules/auth/auth.service.ts:218-228 | A rotation revokes and links the end of one chain, appends the new token to it, and leaves every other chain alone. |
| RefreshTokenChains.ChainsInEveryRun | src/modules/auth/auth.service.ts:170-262 | In every run in which no rotation issues a token that expires before the one it replaces, each family is one chain along the successor pointers in order of issue and expiry, all but its last token revoked. |
| RefreshTokenChains.OneLifetimeOutlives | src/modules/auth/auth.service.ts:86-96 | With one lifetime for all tokens no rotation does that, so every run has chains. |
| RefreshTokens.AtMostOneLive | src/modules/auth/auth.service.ts:170-231 | No family ever has two live tokens, whatever the lifetimes. |
| RefreshTokens.RefreshExactly | src/modules/auth/auth.service.ts:170-231 | Whatever the lifetimes, a refresh succeeds if and only if it is signed, of an active user, and for a live newest token of a family or the token that points to it within the window after its last stamp; reuse is reported exactly for the other tokens, and the token issued is the only live one. |
| RefreshTokenChains.AcceptableInChain | src/modules/auth/auth.service.ts:185-207 | In a chain those are its live end, and the one before a live end within the window. |
| RefreshTokens.ReuseKillsFamily | src/modules/auth/auth.service.ts:201-207 | Reported reuse leaves the family without a live token. |
| RefreshTokens.DeadForever | src/modules/auth/auth.service.ts:170-262 | A family without a live token never gets one again, in any run with any lifetimes. |
| RefreshTokens.LoginExactly | src/modules/auth/auth.service.ts:118-164 | A login adds one live token of a new family for the lifetime configured, and changes no other. |
| RefreshTokens.RotatesExactly | src/modules/auth/auth.service.ts:209-231 | A rotation links and stamps exactly the token it stands for and appends one for its user and family. |
| RefreshTokens.RevokesExactly | src/modules/auth/auth.service.ts:201-245 | A logout stamps exactly the token with that hash, a reset exactly those of the user, and reported reuse exactly those of the family. |
| RefreshTokens.ResetSignsOut | src/modules/auth/auth.service.ts:376-397 | After a reset of the password no token of the user is live in any run until the user logs in again. |
| RefreshTokens.Periods | src/modules/auth/auth.service.ts:22-34 | The window is ten seconds, and a cleanup deletes exactly the tokens that expired more than thirty days ago. |
| RefreshTokenChains.CleanupOfChain | src/modules/auth/auth.service.ts:252-262 | A cleanup takes from every chain only a prefix, all of it expired. |
| RefreshTokenChains.PointersResolve | src/modules/auth/auth.service.ts:195-197 | While the families are such chains every successor pointer leads to a stored token, now and after a cleanup at any time. |
| RefreshTokenChains.CleanupDanglesExactly | src/modules/auth/auth.service.ts:252-262 | In any table without dangling pointers no cleanup at any time leaves one if and only if no token expires before the one it replaces. |
| RefreshTokenChains.ShorteningDanglesExactly | src/modules/auth/auth.service.ts:218-228 | After a rotation in a chain no cleanup at any later time leaves a dangling pointer if and only if the new token does not expire before the one it replaces. |
| RefreshTokens.StampedInEveryRun | src/modules/auth/auth.service.ts:226-245 | In every run, with any lifetimes, a rotated token with a live successor is stamped with the time of its rotation or of a later logout of it, and nothing else. |
| RefreshTokens.LogoutReopensWindow | src/modules/auth/auth.service.ts:185-207 | In every run, with any lifetimes, a token that points to a live newest one is accepted if and only if it was rotated within the window, or logged out within the window. |
| RefreshTokens.LogoutThenRefresh | src/modules/auth/auth.service.ts:238-245 | A rotated token presented any time after the window counts as reuse, and after a logout of it gets a new token instead. |
| RefreshTokenChains.ShorterLifetimeDangles | src/modules/auth/auth.service.ts:252-262 | For all lifetimes, a login under a longer one and a rotation under a shorter one leave a dangling pointer after a cleanup between the two expiries, retention included. |
| RefreshTokenChains.SevenDaysToOne | src/modules/auth/utils/refresh-cookie.util.ts:13-32 | The case of 7 days shortened to 1. |
| TenantConnections.TenantConnectionManager.GetDataSourceForTenant | src/common/tenancy/tenant-connection-manager.service.ts:35-61 | Serves and refreshes a live cached connection, joins the open in flight, or starts one. |
| TenantConnections.TenantConnectionManager.EvictIfNeeded | src/common/tenancy/tenant-connection-manager.service.ts:85-97 | The loop computes the recursive eviction. |
| TenantConnections.TenantConnectionManager.CompleteOpen | src/common/tenancy/tenant-connection-manager.service.ts:46-52 | Caches the connection, evicts, and ends the wait. |
| TenantConnections.TenantConnectionManager.FailOpen | src/common/tenancy/tenant-connection-manager.service.ts:53-56 | A failed open ends the wait of its tenant and caches nothing. |
| TenantConnections.HitMovesToEnd | src/common/tenancy/tenant-connection-manager.service.ts:63-66 | A hit moves its entry to the recent end and keeps the order of all others. |
| TenantConnections.EvictedExactly | src/common/tenancy/tenant-connection-manager.service.ts:85-97 | Eviction drops exactly the oldest entries that do not fit and destroys their connections and no other. |
| TenantConnections.EveryRunKeepsCache | src/common/tenancy/tenant-connection-manager.service.ts:35-97 | With requests, completions and failures in any order the limit holds, each tenant has at most one open in flight, and every connection ever opened is cached under its tenant or destroyed. |
| TenantConnections.RequestGetsOwnTenant | src/common/tenancy/tenant-connection-manager.service.ts:35-44 | A request gets a live connection of its own tenant or waits for the one open of it. |
| TenantConnections.RequestedExactly | src/common/tenancy/tenant-connection-manager.service.ts:35-61 | A request serves the open connection of the tenant if and only if there is one, otherwise joins the open in flight if there is one, otherwise begins a new one; what it changes is given in full. |
| TenantConnections.FinishedExactly | src/common/tenancy/tenant-connection-manager.service.ts:46-57 | An open that completes takes the place of the old entry of its tenant or the recent end, drops and destroys the oldest entries over the limit, and ends the wait; one that fails only ends the wait. |
| TenantConnections.CompletedIsLive | src/common/tenancy/tenant-connection-manager.service.ts:46-52 | The connection an open yields is still open when handed out if and only if the limit is at least 1. |
| TenantConnections.EveryRunIsRecent | src/common/tenancy/tenant-connection-manager.service.ts:35-97 | While nobody else destroys cached connections, the cache is in order of last use after every step, and all of it is live. |
| TenantConnections.EvictsLeastRecentlyUsed | src/common/tenancy/tenant-connection-manager.service.ts:85-97 | Whatever a completed open evicts was used before whatever it keeps, and the cache is then full. |
| TenantConnections.ReopenedKeepsPlace | src/common/tenancy/tenant-connection-manager.service.ts:46-48 | A tenant destroyed from outside and reopened keeps its old place, so the order of last use survives if and only if that place was the last. |
| TenantConnections.ReopenedOutOfOrder | src/common/tenancy/tenant-connection-manager.service.ts:35-61 | For every limit of 2 or more a run in which that happens and the tenant used last stands first in line for eviction. |
| NetworkProvisioning.NetworkProvisioningService.CreateAccessForContract | src/modules/network/network-provisioning.service.ts:73-87 | Creates a pending access with its log entry, once. |
| NetworkProvisioning.NetworkProvisioningService.UpsertConfiguration | src/modules/network/network-provisioning.service.ts:133-208 | Saves the fields given, provisions when ready, syncs the profile; a refusal may leave a created access. |
| NetworkProvisioning.NetworkProvisioningService.SyncProfileForContract | src/modules/network/network-provisioning.service.ts:264-295 | Changes only the error mark and the log, and nothing without a plan speed or a target. |
| NetworkProvisioning.NetworkProvisioningService.Transition | src/modules/network/network-provisioning.service.ts:411-434 | The status changes only on success; the log always grows. |
| NetworkProvisioning.NetworkProvisioningService.Suspend | src/modules/network/network-provisioning.service.ts:298-313 | Without effect on a suspended or cut access. |
| NetworkProvisioning.NetworkProvisioningService.Restore | src/modules/network/network-provisioning.service.ts:316-331 | Without effect on an active or cut access. |
| NetworkProvisioning.NetworkProvisioningService.Deprovision | src/modules/network/network-provisioning.service.ts:334-349 | Without effect on a cut access. |
| NetworkProvisioning.EveryRunKeepsLog | src/modules/network/network-provisioning.service.ts:133-208 | In every run, whatever the router answers, replaying the successful log entries alone gives the status of every access, and two accesses that are not cut never share a username. |
| NetworkProvisioning.CutForever | src/modules/network/network-provisioning.service.ts:334-349 | A cut access stays cut in every run of this service. |
| NetworkProvisioning.LogOnlyGrows | src/modules/network/network-provisioning.service.ts:444-468 | Log entries are never removed or rewritten, and no access is ever removed. |
| NetworkProvisioning.RefusedExactly | src/modules/network/network-provisioning.service.ts:152-165 | A username is refused if and only if another access that is not cut holds it and it is not the own one, so the name of a cut access is free. |
| NetworkProvisioning.AcceptedTakesEffect | src/modules/network/network-provisioning.service.ts:167-208 | An accepted request has its username in effect, and turns only a pending, ready access active. |
| NetworkProvisioning.FieldsTakeEffect | src/modules/network/network-provisioning.service.ts:167-190 | An accepted request puts every field given into effect and leaves every other one as it was. |
| NetworkProvisioning.StepTouchesOne | src/modules/network/network-provisioning.service.ts:133-349 | Every operation changes the access of its own contract and no other. |
| NetworkProvisioning.StatusTables | src/modules/network/network-provisioning.service.ts:298-349 | Suspending takes PENDING and ACTIVE to SUSPENDED, restoring PENDING and SUSPENDED to ACTIVE, cutting all but CUT to CUT, each with one log entry; a failure keeps the status, sets the error mark and is logged; in every other case nothing changes. |
| NetworkProvisioning.CreatedExactly | src/modules/network/network-provisioning.service.ts:73-87 | A contract without an access gets a pending one without data and one log entry; one with an access keeps it. |
| NetworkProvisioning.SyncedExactly | src/modules/network/network-provisioning.service.ts:264-295 | A sync of an access with a node or an ONU under a plan with a speed sets the error mark by the answer and logs it; otherwise nothing changes. |
| NetworkProvisioning.UpsertLogs | src/modules/network/network-provisioning.service.ts:133-208 | An accepted request adds the entries of the creation, the provisioning and the sync, each if and only if it took place, in that order, and the error mark is that of the last call. |
| NetworkProvisioning.Refusals | src/modules/network/network-provisioning.service.ts:133-165 | A foreign contract or a missing node is refused before anything is done, a username in use after the access was created. |
| DhcpProvisioning.Router.SetLeaseDisabled | src/modules/network/routeros/routeros-client.ts:1369-1379 | Changes the lease with that identifier and no other. |
| DhcpProvisioning.Router.SetSimpleQueueDisabled | src/modules/network/routeros/routeros-client.ts:1440-1451 | Changes the queue with that identifier and no other. |
| DhcpProvisioning.DhcpProvisioningAdapter.SetLeaseAndQueue | src/modules/network/dhcp-provisioning.adapter.ts:167-185 | The look-ups and edits, stopped by the first call that fails. |
| DhcpProvisioning.DhcpProvisioningAdapter.SuspendAccess | src/modules/network/dhcp-provisioning.adapter.ts:71-97 | Hard cut, or portal with the address listed, by the mode of the node. |
| DhcpProvisioning.DhcpProvisioningAdapter.RestoreAccess | src/modules/network/dhcp-provisioning.adapter.ts:104-120 | Enables lease and queue and takes the address off the list, in every mode. |
| DhcpProvisioning.DhcpProvisioningAdapter.DeprovisionAccess | src/modules/network/dhcp-provisioning.adapter.ts:123-139 | Hard cut in every mode, and off the list. |
| DhcpProvisioning.SuspendedMeans | src/modules/network/dhcp-provisioning.adapter.ts:71-97 | An ok means cut off, or with the portal served and listed unless the addition failed unnoticed. |
| DhcpProvisioning.RestoredMeans | src/modules/network/dhcp-provisioning.adapter.ts:104-120 | An ok means served, whatever came before; the address stays listed if and only if it was and its removal was not reached or failed unnoticed. |
| DhcpProvisioning.DeprovisionedMeans | src/modules/network/dhcp-provisioning.adapter.ts:123-139 | An ok means cut off in every mode; the address stays listed exactly as after a restore. |
| DhcpProvisioning.SameKeyExactly | src/modules/network/routeros/routeros-client.ts:1305-1312 | Two MACs are looked up alike if and only if they differ in the case of letters alone. |
| DhcpProvisioning.OkExactly | src/modules/network/dhcp-provisioning.adapter.ts:71-185 | Each operation answers ok if and only if the access has a MAC, the node is resolved, twice for a hard cut, the portal has an address, and the look-ups and the edits they ask for go through. |
| DhcpProvisioning.StateExactly | src/modules/network/dhcp-provisioning.adapter.ts:71-185 | An ok leaves the first lease of the MAC and the first queue of the contract as asked, the address on or off the list by mode and calls, and every other item and entry as it was; without a MAC or a node nothing changes. |
| DhcpProvisioning.FailureKeeps | src/modules/network/dhcp-provisioning.adapter.ts:167-185 | A failure leaves the list and all queues alone and touches at most the first lease of the MAC. |
| DhcpProvisioning.RestoreUndoesSuspend | src/modules/network/dhcp-provisioning.adapter.ts:71-120 | With every call through, suspend in any mode and restore ends served and off the list, and gives back the very same router if and only if the client was so before. |
| DhcpProvisioning.AllEnabledExactly | src/modules/network/dhcp-provisioning.adapter.ts:167-185 | A restore enables all leases and queues of a client if and only if all past the first were enabled. |
| DhcpProvisioning.NoInterference | src/modules/network/dhcp-provisioning.adapter.ts:71-139 | In any run over many accesses with calls failing anywhere, an access ends as if only its own operations had been made. |
| DhcpProvisioning.RestoredStaysClear | src/modules/network/dhcp-provisioning.adapter.ts:104-120 | Once restored, a client stays served and off the list whatever is done to accesses with other MAC, address and contract. |
| CrmCatalogs.SlugToCode | src/modules/crm/crm-catalogs.service.ts:25-34 | A code is never empty and within the limit, except for the fallback. |
| CrmCatalogs.FullCodeIsWords | src/modules/crm/crm-catalogs.service.ts:26-32 | The pipeline of replacements gives the words of the name joined by single underscores. |
| CrmCatalogs.CodeExactly | src/modules/crm/crm-catalogs.service.ts:25-34 | A code is the words of the name joined by underscores and cut at the limit, or ESTADO when nothing is left. |
| CrmCatalogs.CodeCharacters | src/modules/crm/crm-catalogs.service.ts:26-32 | A code holds nothing but capital letters, digits and underscores. |
| CrmCatalogs.PlainNameIsCode | src/modules/crm/crm-catalogs.service.ts:25-34 | A name of capital letters and digits within the limit is its own code. |
| CrmCatalogs.SameCodeExactly | src/modules/crm/crm-catalogs.service.ts:26-32 | Before cutting, two names share a code if and only if they have the same words, and a code is its own code. |
| CrmCatalogs.CandidatesDiffer | src/modules/crm/crm-catalogs.service.ts:188-190 | Candidates with different suffixes differ however much of the base is cut. |
| CrmCatalogs.GenerateUniqueCode | src/modules/crm/crm-catalogs.service.ts:180-194 | Ends with the first free code in the order of trial after at most as many suffixes as codes, or one more if and only if the codes are the first suffixed forms of the base and the base is one of them; never one more when some code does not end in a digit. |
| CrmCatalogs.OneSuffixTooMany | src/modules/crm/crm-catalogs.service.ts:180-194 | Whatever the limit, the input of that one case: a table whose only code is that of a name as long as the limit that ends in the first suffix, a table this service never sees. |
| CrmCatalogs.OneSuffixTooManyAt30 | src/modules/crm/crm-catalogs.service.ts:59 | Such a name for the limit of 30 the subscription statuses use, against the same hypothetical table. |
| CrmCatalogs.CandidateFits | src/modules/crm/crm-catalogs.service.ts:188-189 | A candidate is within the limit if and only if its suffix is. |
| CrmCatalogs.CandidateExactly | src/modules/crm/crm-catalogs.service.ts:188-190 | A candidate is as much of the base as leaves room for an underscore and the number, followed by these. |
| CrmCatalogs.CodeFits | src/modules/crm/crm-catalogs.service.ts:180-194 | With room for the fallback and the largest suffix, the code is within the limit. |
| MacMatching.CompactIsOneOf | src/modules/genieacs/genieacs-client.ts:206-220 | The compact pattern of prefix and alternatives matches a text if and only if the pattern of one candidate does. |
| MacMatching.MatchesExactly | src/modules/genieacs/genieacs-client.ts:968-971 | The pattern of a MAC matches exactly the texts in the shape of a MAC that are read as its octets. |
| MacMatching.AcceptedExactly | src/modules/genieacs/genieacs-client.ts:929-942 | A text is taken for a MAC if and only if twelve of its characters are hexadecimal digits; it has the shape of one if and only if besides it holds no stray character, that is none but single separators between octets. |
| MacMatching.SerialTakenForMac | src/modules/genieacs/genieacs-client.ts:929-942 | A serial that begins with HWTC never has the shape of a MAC, and is taken for one if and only if eleven hexadecimal digits follow, with which octets. |
| MacMatching.BuildNearbyLastOctetHexValues | src/modules/genieacs/genieacs-client.ts:950-960 | The candidates are exactly the octets in range within the tolerance, without the original, each once. |
| MacMatching.NearbyExactly | src/modules/genieacs/genieacs-client.ts:206-220 | The compact query matches exactly the MACs that share five octets and differ in the last by 1 to the tolerance. |
| MacMatching.GenieAcsClient.QueryFirstDevice | src/modules/genieacs/genieacs-client.ts:222-239 | The first result, none, or a refusal of several when one is required. |
| MacMatching.GenieAcsClient.FindDeviceBySerial | src/modules/genieacs/genieacs-client.ts:148-175 | Finds by serial, else by the same MAC in any notation, else by a neighbouring MAC, each only when the one before found nothing; a neighbour never when the match has to be exact. |
| MacMatching.LookUpExactly | src/modules/genieacs/genieacs-client.ts:148-175 | A device with the serial beats every other, one with the same MAC a neighbour; of several the first is taken, or refused when the match has to be exact, which never takes a device with neither that serial nor that MAC. |
| MacMatching.NeighbourExactly | src/modules/genieacs/genieacs-client.ts:99-106 | Next to a MAC are exactly those with the same first five octets whose last one differs by 1 to 4. |
| MacMatching.OctetValueExactly | src/modules/genieacs/genieacs-client.ts:950-951 | The value of an octet is that of its two hexadecimal digits, the first worth sixteen times as much. |
| AgentRotation.CrmService.AssignNextAgent | src/modules/crm/crm.service.ts:92-124 | Takes the next agent and moves the cursor; without agents nothing changes. |
| AgentRotation.ChosenFollowsLast | src/modules/crm/crm.service.ts:106-113 | The agent chosen is active and has the least identifier above the last one, or the least of all when the last was the greatest or has left. |
| AgentRotation.Shares | src/modules/crm/crm.service.ts:92-124 | After any number of assignments every agent has had the same number, and one more exactly if it comes up within the remainder. |
| AgentRotation.WindowHitsEachOnce | src/modules/crm/crm.service.ts:92-124 | Wherever the rotation stands, as many assignments as agents reach each exactly once. |
| AgentRotation.CountsDifferByOne | src/modules/crm/crm.service.ts:92-124 | Over any number of assignments no agent gets two more than another. |
| AgentRotation.ComesNearerExactly | src/modules/crm/crm.service.ts:106-113 | An assignment chooses an active agent or comes nearer to it in cyclic order, except exactly when the last agent assigned is below it and has left while another below that one is active. |
| AgentRotation.ReachedInTime | src/modules/crm/crm.service.ts:92-124 | However the set changes, an agent active all the time is chosen within as many assignments as there are agents ever active, if that exception does not arise; it never does while the last one assigned is always still active. |
| AgentRotation.AlwaysPassedOver | src/modules/crm/crm.service.ts:106-111 | With that exception an agent that is always active is never chosen, among three agents and in runs of any length. |

## Left out

- MorosidadRuns.EveryRunRemindsOnce: assumes that no save fails; what a failing save does is `RepeatsExactlyOnFailedSave`.
- MorosidadLaws.CutsExactly: assumes that no save fails, as does `CycleAgreesWithList`; the cuts under failures are `CutsUnderFailures`.
- TenantConnections.EveryRunIsRecent: assumes that nobody else destroys cached connections; what happens then is `ReopenedKeepsPlace`.
- Invoicing.EveryRunKeepsNumbers: assumes books that begin without documents and with ranges at their start.
- RefreshTokenChains.ChainsInEveryRun: assumes that no rotation issues a token that expires before the one it replaces; what such a rotation does is `ShorteningDanglesExactly`.
- CsvRoundTrip.RoundTrip: assumes two or more columns whose headers are on one line, known, without tab and semicolon, and fill different fields.
- SeparatedFiles.SeparatedTable: assumes cells without quotes, line breaks and the separator, as such files are written without quoting; what quotes do is in `CsvRoundTrip`.
- BillingAmounts.EveryRowIsCharged: assumes that cycles run in the year 100 or later, where JavaScript reads a year as written.
- MorosidadRuns.EveryRunAgesRightly: assumes settings and overrides that do not change, as does `VencidaStays`; what changes of them do is `VencidaKeptExactly`.
- NetworkProvisioning.CutForever: is about this service alone; `ServiceControlService` may carry out a pending RESTORE on an access cut since, because cutting does not clear the pending operation.
- Real interleaving inside one refresh, one allocation, one suspension or one cycle: the code takes no lock, and each call is one step here.
- `emitInvoice` called without a transaction, and the default ranges `getAllSequences` creates.
- Copies of fiscal documents archived after a commit, reports, printed documents, e-mail and events.
- `ServiceControlService`, which answers the calls to the network, and pending operations it may complete later, are not part of this model.
- Filters, sorting and totals of `getDelinquents`, and `getCarteraVencida`.
- `importLegacyAccess`, which sets any status and skips the username rule.
- The alias, the VLAN, the medium and the stored password of an access.
- Agreement between the status of an access and the router or OLT.
- Provisioning a lease and syncing a queue in the DHCP adapter, PPPoE, and accesses of one router spread over several nodes.
- The router is taken to answer a look-up with all items whose key matches without regard to case, and to hold an address once per list.
- Comments of address-list entries.
- JWT signing, password hashing, SHA-256: only freshness and injectivity of tokens. The expiry of a token is part of its signature.
- An unset or malformed connection limit, which switches eviction off, and an empty tenant slug in the run theorems, which stops it.
- Local time and daylight saving: days are days of the calendar.
- Binary floating point: amounts are exact.
- `Number` on texts that are not plain digits, such as blanks or exponents; such dates are refused here.
- Concept and label texts of invoices, and the notification events.
- Spreadsheet files, values of cells that are not text, UTF-8 encoding, and field maps with keys of `Object.prototype`.
- Unicode normalization in `normalizeHeader` and `slugToCode`.
- Optional fields of the suspension history, such as who reconnected and the fee invoice.
- The `$` of a pattern also matches before a final line feed in the database's dialect; here it matches at the end only.
- Transport, credentials and retries of every foreign call.
- Controllers, guards, modules, migrations, seeds, and the plain create, read, update and delete of catalogues.
