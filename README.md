# bcquery in Dafny

bcquery is a command-line tool that queries the block files of a Bitcoin
client's data directory. It has three operations:

- `GetBlocks <date>` lists the blocks whose day is not before a date.
- `GetBlockTransactions <hash>` lists the inputs and outputs of every
  transaction of one block.
- `GetAddressTransactions <address>` lists the inputs and outputs of the
  transactions that concern one address.

Rows go to standard output, or as `;`-terminated lines to a CSV file.

This project models the tool's engine (class `BCQuery`), its helper and its
two output providers, and proves properties of the model:

- **Encoding, Text** model the value conversions the tool relies on:
  - a hash as reversed hexadecimal text, and parsing that text back;
  - decimal numbers;
  - UTF-8 encoding and decoding;
  - white-space trimming and ASCII lower-casing;
  - joining and splitting fields.
- **Chain** holds the ledger values: inputs, outputs, transactions, blocks
  and container files. It also holds a `Library` value carrying the library
  behaviour the tool uses but does not define: date parsing, short date and
  time formatting, amount formatting and the block-file name pattern.
- **Store** models the persistent index store. It maps bytes to bytes, reads
  a missing key as empty, and is written first-write-wins from the index
  queue.
- **Helper** models the helper functions:
  - `GetFileIndex`;
  - `GetFiles`, an ordinal name sort filtered by the file pattern;
  - `HasWritePermissionOnDir`, as a loop over the access rules of a
    directory.
- **Scan** models one scan of the container files. It produces the
  (block, transaction) visits in order and the two index records queued
  per visit. It also folds the three query callbacks over the visits:
  - the list-blocks callback with its "already listed" set;
  - the do-nothing callback;
  - the address callback, which collects candidate transaction hashes.
- **Resolve** models the resolution loops of the two detail queries. Each
  input is joined, through the store and the block index, to the output it
  spends. The result is the rows written and whether an exception ended
  the query.
- **CsvOutput, ConsoleOutput** model the two output providers as classes
  whose state is the lines written so far.
- **Engine** models the `BCQuery` class:
  - the queue, the store and the block index as fields;
  - `WatchQueue`, `Runner` and `PrepareIndex` as methods;
  - the three queries;
  - `Execute` with its seven error codes.

The source runs the scan, the queue drain and the block indexing on
separate threads. The model runs them one after another: the scan, then
the drain, then the block index, then the resolution.

The model follows the code where it differs from the tool's own
description:

- A list-blocks row starts with an empty field, not a block height.
- The file column of an INPUT row is the file of the block holding the
  spent output, not of the queried block.
- For an input signed from the address, the address query takes the
  transaction that input spends as its candidate, not the spending
  transaction.

## Model

| member | source | states |
|---|---|---|
| Encoding.HashTextRoundTrip | bcquery/BCQuery.cs:290 | parsing the printed text of a hash gives the hash back |
| Encoding.HashTextInjective | bcquery/BCQuery.cs:231-236 | different hashes print as different texts, so a row's hash field names one block |
| Encoding.DecimalTextRoundTrip | bcquery/BCQuery.cs:235 | the decimal text of a transaction count reads back as that count |
| Encoding.Utf8RoundTrip | bcquery/BCQuery.cs:199 | decoding the UTF-8 bytes of a file path gives the path back |
| Text.TrimEmpty | bcquery/BCQuery.cs:305 | a text trims to nothing exactly when it is all white space |
| Text.TrimIsSlice | bcquery/ConsoleOutputProvider.cs:22 | Trim's result is a slice of its input with only white space cut off on either side |
| Text.TrimTidy | bcquery/ConsoleOutputProvider.cs:22 | a line with no white space at either end is unchanged by Trim |
| Text.TerminatedIsJoin | bcquery/ConsoleOutputProvider.cs:17-21 | putting a separator after every field equals joining the fields by it and adding one separator |
| Store.PutIfEmpty | bcquery/BCQuery.cs:164-169 | a dequeued record is written when its key reads empty; every other key reads as before |
| Store.DrainReads | bcquery/BCQuery.cs:158-171 | after `Drain` (the dequeue loop) empties a queue, a key reads its old value if that was non-empty, else the first non-empty value queued for it |
| Store.NoOverwrite | bcquery/BCQuery.cs:166-169 | a key that holds a value keeps it, whatever is queued |
| Store.DrainIdempotent | bcquery/BCQuery.cs:166-169 | draining the same records a second time changes nothing a reader sees |
| Store.FirstWriteWins | bcquery/BCQuery.cs:160-171 | an empty key reads, after the drain, the first non-empty value queued for it |
| Engine.BCQuery.constructor | bcquery/BCQuery.cs:23-28 | a new engine has an empty queue, no block index, and the store as earlier runs left it |
| Engine.BCQuery.WatchQueue | bcquery/BCQuery.cs:146-180 | the queue ends empty, and the store equals the old store with every queued record drained in order; the outer loop ends after eleven passes, each followed by a one-second sleep |
| Helper.GetFileIndex | bcquery/Helper.cs:47-53 | negative exactly when the name pattern does not match; otherwise the number its capture group spells |
| Helper.PrecedesTotal | bcquery/Helper.cs:30 | any two files are ordered one way or the other, by name or by descending full name |
| Helper.PrecedesTransitive | bcquery/BCQuery.cs:191 | the file orders are transitive |
| Helper.InsertMultiset | bcquery/Helper.cs:30 | inserting a file adds exactly that file |
| Helper.InsertLowerBound | bcquery/Helper.cs:30 | a file preceding the inserted file and every listed one precedes the whole result |
| Helper.InsertSorted | bcquery/Helper.cs:30 | inserting a file into a sorted list keeps it sorted |
| Helper.SortFilesSorted | bcquery/BCQuery.cs:191 | the sort's result is in the requested order and is a permutation of the input |
| Helper.IndexedCounts | bcquery/Helper.cs:32-35 | dropping the files with a negative index keeps each remaining file as often as it was there |
| Helper.IndexedSorted | bcquery/Helper.cs:32-35 | dropping files keeps the order of the rest |
| Helper.GetFilesExact | bcquery/Helper.cs:28-38 | `GetFiles`'s result is sorted by name; each file appears as often as in the directory when its index is not negative, and otherwise not at all |
| Helper.HasWritePermissionOnDir | bcquery/Helper.cs:61-87 | true exactly when the access-control list and its rules exist, some rule covering Write allows, and none denies |
| Helper.DenyOverrides | bcquery/Helper.cs:80-86 | one Deny rule covering Write refuses access wherever it stands |
| Helper.RuleOrderIrrelevant | bcquery/Helper.cs:75-86 | the verdict depends only on the multiset of rules, not their order |
| Helper.PartialRuleIgnored | bcquery/Helper.cs:77-78 | a rule lacking any bit of Write changes nothing |
| Scan.FileVisitsExact | bcquery/BCQuery.cs:195 | a file gives as many visits as its blocks have transactions, and exactly its (block, transaction) pairs |
| Scan.RecordsShape | bcquery/BCQuery.cs:197-199 | two records per visit in visiting order: transaction hash to block hash, then block hash to the UTF-8 path |
| Scan.RecordsAppend | bcquery/BCQuery.cs:191-201 | the records of consecutive visit runs are the concatenation of their records |
| Scan.ScanIndexesTransaction | bcquery/BCQuery.cs:198 | after the drain, an unseen transaction hash reads the hash of the block of its first visit, unless a block hash collides with it |
| Scan.ScanIndexesPath | bcquery/BCQuery.cs:199 | after the drain, an unseen block hash reads the UTF-8 path of its first visit, and decoding it gives that path |
| Scan.SummaryRow | bcquery/BCQuery.cs:231-235 | a list-blocks row has four fields: an empty first field, then the block hash text |
| Scan.FirstSpendFrom | bcquery/BCQuery.cs:338-340 | none exactly when no input's address text is the address; else the previous hash of the first input that has it |
| Scan.FoldAppend | bcquery/BCQuery.cs:191-201 | running the callback (`OnVisit`, which dispatches to the three callbacks of BCQuery.cs:261, 226-238 and 337-346) over two visit runs is running it over the first, then the second |
| Scan.QualifyingHashesExact | bcquery/BCQuery.cs:227 | a hash qualifies exactly when some visited block has that hash and a day not before the day asked for |
| Scan.ListedOnce | bcquery/BCQuery.cs:226-238 | over `OnVisit` with the list-blocks callback, the listed set is the set of qualifying block hashes, and each qualifying hash has exactly one row while no other hash has one |
| Scan.ListedRowsAreSummaries | bcquery/BCQuery.cs:226-238 | every listed row is the summary row of a visited block that qualifies |
| Scan.CandidatesCollected | bcquery/BCQuery.cs:337-346 | over `OnVisit` with the address callback, the candidates are the earlier ones plus what each visit contributes |
| Scan.ContributionsExact | bcquery/BCQuery.cs:338-345 | a hash is a candidate exactly when some visit contributes it, as a spent hash or as a paying transaction |
| Scan.UnseenAddressNoCandidates | bcquery/BCQuery.cs:338-345 | an address no visited input or output shows adds no candidate |
| Engine.BCQuery.ScanFile | bcquery/BCQuery.cs:193-201 | one file's task runs the callback and queues the two records for every visit of the file, in order |
| Engine.BCQuery.ScanFiles | bcquery/BCQuery.cs:191-203 | the queue gains the records of all visits of the files, file after file, and the callback state is the fold over those visits |
| Engine.BCQuery.Runner | bcquery/BCQuery.cs:187-204 | the same, over the indexed files in descending full-name order |
| Engine.RerunStable | bcquery/BCQuery.cs:158-171 | a second run over the same container files leaves every key of the persistent store reading as the first run left it |
| Engine.BlockIndexExact | bcquery/BCQuery.cs:209-214 | every block is found under its hash, and a hash maps to the last block carrying it |
| Engine.BCQuery.IndexFile | bcquery/BCQuery.cs:211-213 | indexing one file's blocks extends the index exactly as if they followed the earlier blocks |
| Engine.BCQuery.PrepareIndex | bcquery/BCQuery.cs:209-214 | the index is that of every block of the indexed files, in file order |
| Resolve.AddressFieldTrims | bcquery/BCQuery.cs:304-305 | `AddressField`, the address column, is the placeholder exactly when the address text trims to nothing, and otherwise that text |
| Resolve.StoredHash | bcquery/BCQuery.cs:298 | a stored value is read as a hash exactly when it is 32 bytes long, and then it is that value |
| Resolve.SpentOutputsOfUnique | bcquery/BCQuery.cs:299 | `SpentOutputs` flattens the outputs of the block's transactions with the spent hash; when one transaction of the block has the spent hash, the outputs searched are that transaction's |
| Resolve.NoneSpent | bcquery/BCQuery.cs:299 | with no transaction of that hash, no outputs are searched |
| Resolve.InputRow | bcquery/BCQuery.cs:298-308 | an INPUT row has six fields: the spending transaction's hash, "INPUT" and the spent hash in their places |
| Resolve.JoinCorrect | bcquery/BCQuery.cs:298-307 | the INPUT row exists exactly when the spent output exists, and its amount is that output's value |
| Resolve.OutputRow | bcquery/BCQuery.cs:313-321 | an OUTPUT row has six fields: "OUTPUT", the transaction's hash twice and the output's amount |
| Resolve.FailureSticks | bcquery/BCQuery.cs:292-323 | once an exception ends the query, the later steps add nothing |
| Resolve.SequenceRows | bcquery/BCQuery.cs:292-323 | when no step throws, nothing fails and the row count is the sum of the steps' counts |
| Resolve.InputEmission | bcquery/BCQuery.cs:296-309 | a generation input and a failed join write no row; any other input writes one |
| Resolve.InputsShape | bcquery/BCQuery.cs:294-310 | the input loop writes at most one row per spending input, exactly one each unless it throws, and every one is an INPUT row of the transaction |
| Resolve.TxEmissionShape | bcquery/BCQuery.cs:294-322 | for `TxEmission`, a transaction's rows: unless it throws, a transaction writes one INPUT row per spending input and then its OUTPUT rows; if it throws, only INPUT rows were written |
| Resolve.TxsRowCount | bcquery/BCQuery.cs:292-323 | unless it throws, block detail writes one row per spending input and per output of every transaction |
| Resolve.JoinInput | bcquery/BCQuery.cs:298-308 | the join yields the INPUT row of the spent output, and nothing exactly where the stored block hash, its block or the spent output is missing |
| Resolve.ResolveInputs | bcquery/BCQuery.cs:294-310 | the input loop writes the INPUT rows in order and stops at the first failed join |
| Resolve.ResolveOutputs | bcquery/BCQuery.cs:311-322 | the output loop writes every OUTPUT row in order |
| Resolve.ResolveTransaction | bcquery/BCQuery.cs:294-322 | a transaction's input rows, then its output rows unless an input join failed |
| Resolve.BlockTransactionRows | bcquery/BCQuery.cs:290-324 | the loop equals `BlockEmission`: nothing for a text that is not a hash; a failure when the index lacks the block; else every transaction's rows in order, up to the first failure |
| Resolve.FindTransaction | bcquery/BCQuery.cs:378 | none exactly when no transaction has the hash; else the first one that has it |
| Resolve.ResolveCandidate | bcquery/BCQuery.cs:377-407 | the loop body equals `CandidateEmission`: a candidate fails when its stored block hash, its block or its transaction is missing; else it writes that transaction's rows |
| Resolve.AddressTransactionRows | bcquery/BCQuery.cs:375-408 | each candidate is resolved at most once, in some order, up to the first failure; every candidate is resolved when none fails |
| Engine.OperationOf | bcquery/BCQuery.cs:67-69 | each operation is recognised exactly when its lower-cased name equals the lower-cased argument |
| Engine.OperationCaseInsensitive | bcquery/BCQuery.cs:67-76 | an argument and its lower-cased form select the same operation |
| Engine.OutputCheck | bcquery/BCQuery.cs:41-57 | with a file, error 2 exactly when the access query throws and error 1 exactly when write is not permitted; no error otherwise |
| Engine.QueryCheck | bcquery/BCQuery.cs:59-140 | errors 3 to 7 each exactly under their condition (no block files, unknown operation, bad date, hash text not 64 long, address not 34 long); otherwise the query with its parsed parameter |
| Engine.Validate | bcquery/BCQuery.cs:37-140 | error codes are 1 to 7; an output-file error exactly when a file is named and cannot be written; the rows go to the console exactly when no file is named |
| Engine.BCQuery.CheckOutput | bcquery/BCQuery.cs:39-57 | the output check as above, printing its error line; the CSV provider is opened for the file exactly when the check passes with a file |
| Engine.BCQuery.CheckQuery | bcquery/BCQuery.cs:59-140 | the query checks as above, printing exactly the error line of a rejection |
| Engine.BCQuery.Check | bcquery/BCQuery.cs:37-140 | all checks in Execute's order; a rejection prints one line; a CSV provider exactly when a writable file is named |
| Engine.EmitToConsole | bcquery/ConsoleOutputProvider.cs:15-23 | the console gains one trimmed line per row, in order |
| Engine.EmitToCsv | bcquery/CSVOutputProvider.cs:24-35 | the file gains one `;`-terminated line per row, in order |
| Engine.Report | bcquery/BCQuery.cs:103-111 | the rows go to the chosen provider, then the console gets the error-2 line when the query threw |
| Engine.UnseenAddressNoRows | bcquery/BCQuery.cs:337-408 | an address that no visited input or output shows gives no candidate, so the query writes nothing and does not fail |
| Engine.BCQuery.GetBlocks | bcquery/BCQuery.cs:222-251 | the rows are the listed summaries of the scan, the queue is drained, and the store holds the scan's records |
| Engine.BCQuery.GetBlockTransactions | bcquery/BCQuery.cs:259-326 | the store holds the scan's records, the index holds the files' blocks, and the rows are the block-detail resolution over them |
| Engine.BCQuery.GetAddressTransactions | bcquery/BCQuery.cs:334-410 | the rows are the resolution of distinct collected candidates in some order; all candidates are resolved unless one fails |
| Engine.BCQuery.RunListBlocks | bcquery/BCQuery.cs:76-96 | the listed rows are written to the chosen provider; afterwards the queue is empty, the store is the scanned store and the index is unchanged |
| Engine.BCQuery.RunBlockDetail | bcquery/BCQuery.cs:99-118 | the block-detail rows are written, then the error-2 line when it threw; afterwards the queue is empty, the store is the scanned store and the index is that of the container files |
| Engine.BCQuery.RunAddressDetail | bcquery/BCQuery.cs:121-140 | the address rows are written, then the error-2 line when it threw; afterwards the queue is empty, the store is the scanned store and the index is that of the container files |
| Engine.BCQuery.Execute | bcquery/BCQuery.cs:37-141 | a rejection prints exactly its error line, writes no row and leaves queue, store and index untouched; otherwise the queue ends empty, the store is the scanned store, and the query runs over the scanned store and index, and its rows and any error-2 line are written as above |
| CsvOutput.FormatRow | bcquery/CSVOutputProvider.cs:26-30 | the loop builds every field followed by `;` |
| CsvOutput.SeparatorCount | bcquery/CSVOutputProvider.cs:26-30 | a row of n fields adds exactly n separators, and the line ends with one |
| CsvOutput.SplitCsvLine | bcquery/CSVOutputProvider.cs:26-30 | with no `;` inside a field, splitting the line on `;` gives the fields back, then one empty piece |
| CsvOutput.CsvOutputProvider.constructor | bcquery/CSVOutputProvider.cs:17-20 | the provider keeps its file path and the file's existing lines |
| CsvOutput.CsvOutputProvider.WriteFields | bcquery/CSVOutputProvider.cs:24-35 | the file gains exactly one line, the row's |
| CsvOutput.CsvOutputProvider.WriteMessage | bcquery/CSVOutputProvider.cs:39-45 | the file gains exactly one line, the message followed by `;` |
| ConsoleOutput.ConsoleLine | bcquery/ConsoleOutputProvider.cs:15-23 | a printed row neither starts nor ends with white space |
| ConsoleOutput.FormatRow | bcquery/ConsoleOutputProvider.cs:17-22 | the loop puts a space after every field, and the line is the trimmed result |
| ConsoleOutput.LeadingEmptyFieldVanishes | bcquery/ConsoleOutputProvider.cs:17-22 | an empty first field, as in a list-blocks row, leaves no trace in the line |
| ConsoleOutput.TidyRowIsJoin | bcquery/ConsoleOutputProvider.cs:17-22 | a row whose ends are not white space prints as its fields joined by single spaces |
| ConsoleOutput.InteriorEmptyField | bcquery/ConsoleOutputProvider.cs:17-22 | the three-field row `[a, "", b]` (tidy outer ends) prints as `a`, two spaces, `b` |
| ConsoleOutput.ConsoleOutputProvider.WriteFields | bcquery/ConsoleOutputProvider.cs:15-23 | standard output gains exactly one line, the row's |
| ConsoleOutput.ConsoleOutputProvider.WriteMessage | bcquery/ConsoleOutputProvider.cs:27-30 | standard output gains exactly the message |

## Left out

- Threads, tasks and timing are not modelled. The source runs one scan task per file, the queue drain and the block indexing concurrently. The model runs them one after another, files in descending full-name order. The drain's eleven passes keep their count but not the one-second sleep after each, and the drain sees the whole queue at once.
- The order in which the candidate dictionary yields its keys is unspecified in .NET. `GetAddressTransactions` leaves it open as a ghost ordering of distinct candidates.
- NBitcoin's block-file reading, block and transaction hashing, and script address decoding are not modelled. A container file is given with its blocks; a transaction with its hash; an address as an optional text, where null means no address.
- .NET date parsing, short date and time formatting, amount formatting and the block-file name pattern are parameters (`Library`), not models.
- Culture-sensitive `ToLower` is modelled as ASCII lower-casing (`OperationOf`).
- Culture-sensitive name ordering is modelled as ordinal (code point) order (`GetFiles`, `ScanOrder`).
- .NET string length counts UTF-16 units, while the model counts characters. A parameter with characters outside the Basic Multilingual Plane is measured differently (`QueryCheck`).
- GetFileIndex: the `int.Parse` overflow on a capture whose value exceeds Int32.MaxValue (2147483647) is not modelled; that exception is uncaught and ends the program, whereas the model reads any digit run as a natural number.
- .NET's replacement of invalid UTF-8 sequences is not modelled. The paths read back were written as valid UTF-8 (`Utf8RoundTrip`).
- The error-2 line of an exception caught around a query is modelled without the exception's message text (`QueryFailed`).
- `Console.Write` (no line break) and `Console.WriteLine` are both modelled as one printed line.
- A data directory that does not exist makes the source throw outside any handler. The model has no such case: the directory is given as its list of files.
- `HasWritePermissionOnDir` takes the directory name from the output path before it fetches the access-control list. That path handling is not modelled; the model takes what the access-control query returned or threw.
- The LevelDB options, its location under the application-data folder, and opening and closing the database are not modelled. The store is a map that outlives runs.
- The order in which the block index enumerates the block store is modelled as the ordered file list, with a later block of the same hash replacing an earlier one (`BlockIndexOf`).
- `uint256.TryParse` also accepts a `0x`-prefixed text. `ParseHash` accepts only the 64 hex digits.
- When the block index has no block for a hash, it returns null and the source throws on its transactions. The model records that as a failure with no rows.
- Program.cs (argument parsing and help text) and IOutputProvider.cs (the interface) are not part of this model.
