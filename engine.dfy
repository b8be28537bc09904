/** The query engine (class BCQuery): argument validation and dispatch, the
    scan that feeds the index queue, the queue drain into the persistent
    store, the in-memory block index, and the three queries. The worker
    threads are taken in one order: the scan, then the drain, then the
    block index, then the resolution. */
module Engine {
  import opened Wrappers
  import opened Encoding
  import opened Text
  import opened Chain
  import opened Store
  import opened Helper
  import opened Scan
  import opened Resolve
  import opened CsvOutput
  import opened ConsoleOutput

  // ---------------------------------------------------------------------
  // Scan order and the block index

  /** GetFiles(...).OrderByDescending(f => f.FullName): the order the scan
      visits the container files in. */
  function ScanOrder(dir: seq<ContainerFile>, fileRegex: string -> Option<Digits>): seq<ContainerFile>
  {
    SortFiles(GetFiles(dir, fileRegex), FullNameDescending)
  }

  /** Every block of the files, file after file. */
  function AllBlocks(files: seq<ContainerFile>): seq<Block>
  {
    if files == [] then [] else AllBlocks(files[..|files| - 1]) + files[|files| - 1].blocks
  }

  /** The block index after putting every block under its hash, in order. */
  function BlockIndexOf(blocks: seq<Block>): BlockIndex
  {
    if blocks == [] then map[]
    else BlockIndexOf(blocks[..|blocks| - 1])[blocks[|blocks| - 1].hash := blocks[|blocks| - 1]]
  }

  /** Every block is found under its own hash; a hash maps to the last block
      carrying it and to nothing else. */
  lemma {:induction false} BlockIndexExact(blocks: seq<Block>)
    ensures forall i :: 0 <= i < |blocks| ==> blocks[i].hash in BlockIndexOf(blocks)
    ensures forall h :: h in BlockIndexOf(blocks) ==>
              exists i :: 0 <= i < |blocks| && BlockIndexOf(blocks)[h] == blocks[i] && blocks[i].hash == h
                          && forall j :: i < j < |blocks| ==> blocks[j].hash != h
  {
    if blocks != [] {
      var front, last := blocks[..|blocks| - 1], blocks[|blocks| - 1];
      BlockIndexExact(front);
      var idx := BlockIndexOf(blocks);
      forall i | 0 <= i < |blocks| ensures blocks[i].hash in idx {
        if i < |front| {
          assert front[i] == blocks[i];
        }
      }
      forall h | h in idx
        ensures exists i :: 0 <= i < |blocks| && idx[h] == blocks[i] && blocks[i].hash == h
                            && forall j :: i < j < |blocks| ==> blocks[j].hash != h
      {
        if h == last.hash {
          assert idx[h] == blocks[|blocks| - 1];
        } else {
          var i :| 0 <= i < |front| && BlockIndexOf(front)[h] == front[i] && front[i].hash == h
                   && forall j :: i < j < |front| ==> front[j].hash != h;
          assert blocks[i] == front[i];
          assert forall j :: i < j < |blocks| ==> blocks[j].hash != h by {
            forall j | i < j < |blocks| ensures blocks[j].hash != h {
              if j < |front| {
                assert blocks[j] == front[j];
              }
            }
          }
        }
      }
    }
  }

  lemma BlockIndexStep(blocks: seq<Block>, b: Block)
    ensures BlockIndexOf(blocks + [b]) == BlockIndexOf(blocks)[b.hash := b]
  {
    assert (blocks + [b])[..|blocks|] == blocks;
  }

  lemma AllBlocksStep(files: seq<ContainerFile>, i: nat)
    requires i < |files|
    ensures AllBlocks(files[..i + 1]) == AllBlocks(files[..i]) + files[i].blocks
  {
    assert files[..i + 1][..i] == files[..i];
  }

  lemma VisitsStep(files: seq<ContainerFile>, i: nat)
    requires i < |files|
    ensures Visits(files[..i + 1]) == Visits(files[..i]) + FileVisits(files[i])
  {
    assert files[..i + 1][..i] == files[..i];
  }

  lemma RecordsStep(vs: seq<Visit>, v: Visit)
    ensures Records(vs + [v]) == Records(vs) + VisitRecords(v)
  {
    assert (vs + [v])[..|vs|] == vs;
  }

  lemma FoldStep(cb: Callback, st: ScanState, vs: seq<Visit>, v: Visit)
    ensures Fold(cb, st, vs + [v]) == OnVisit(cb, Fold(cb, st, vs), v)
  {
    assert (vs + [v])[..|vs|] == vs;
  }

  /** One more file scanned: its records and its callback runs follow those
      of the files before it. */
  lemma ScanStep(files: seq<ContainerFile>, i: nat, cb: Callback, st0: ScanState)
    requires i < |files|
    ensures Records(Visits(files[..i + 1])) == Records(Visits(files[..i])) + Records(FileVisits(files[i]))
    ensures Fold(cb, st0, Visits(files[..i + 1])) == Fold(cb, Fold(cb, st0, Visits(files[..i])), FileVisits(files[i]))
  {
    VisitsStep(files, i);
    RecordsAppend(Visits(files[..i]), FileVisits(files[i]));
    FoldAppend(cb, st0, Visits(files[..i]), FileVisits(files[i]));
  }

  // ---------------------------------------------------------------------
  // Validation

  datatype OperationName = GetBlocksName | GetBlockTransactionsName | GetAddressTransactionsName

  /** The operation argument, compared after lower-casing both sides. This
      is the definition; OperationCaseInsensitive states what follows. */
  function OperationOf(operation: string): (r: Option<OperationName>)
    ensures r == Some(GetBlocksName) <==> ToLower(operation) == ToLower("GetBlocks")
    ensures r == Some(GetBlockTransactionsName) <==> ToLower(operation) == ToLower("GetBlockTransactions")
    ensures r == Some(GetAddressTransactionsName) <==> ToLower(operation) == ToLower("GetAddressTransactions")
  {
    var op := ToLower(operation);
    if op == ToLower("GetBlocks") then Some(GetBlocksName)
    else if op == ToLower("GetBlockTransactions") then Some(GetBlockTransactionsName)
    else if op == ToLower("GetAddressTransactions") then Some(GetAddressTransactionsName)
    else None
  }

  /** Operation names are matched without regard to ASCII case. */
  lemma OperationCaseInsensitive(operation: string)
    ensures OperationOf(ToLower(operation)) == OperationOf(operation)
  {
    ToLowerIdempotent(operation);
  }

  /** What Directory.GetAccessControl did for the output file's directory. */
  datatype AccessQuery = AclThrows(message: string) | AclReturned(acl: Option<DirectorySecurity>)

  datatype Sink = ToConsole | ToCsv(path: string)

  datatype Query = ListBlocks(from: nat) | BlockDetail(hashText: string) | AddressDetail(address: string)

  /** Execute's checks: rejected with an error code and its console line, or
      a query to run and where its rows go. */
  datatype Plan = Reject(code: nat, message: string) | Run(sink: Sink, query: Query)

  function ErrorLine(code: nat, text: string): string
  {
    "ERROR " + DecimalText(code) + ": " + text
  }

  /** The checks in the order Execute makes them: output file (1, or 2 when
      the access query throws), container files (3), operation (4), and the
      operation's parameter (5, 6, 7). */
  function Validate(file: string, access: AccessQuery, dir: seq<ContainerFile>, datapath: string,
                    operation: string, parameter: string, lib: Library): (p: Plan)
    ensures p.Reject? ==> 1 <= p.code <= 7
    ensures (p.Reject? && p.code <= 2) <==> file != "" && !(access.AclReturned? && WritePermitted(access.acl))
    ensures p.Run? ==> (p.sink == ToConsole <==> file == "") && (p.sink.ToCsv? ==> p.sink.path == file)
  {
    match OutputCheck(file, access)
    case Some(rejected) => rejected
    case None => QueryCheck(if file == "" then ToConsole else ToCsv(file), dir, datapath, operation, parameter, lib)
  }

  /** The output-file check: nothing to check without a file; otherwise
      the access query must not throw (2) and must grant write (1). */
  function OutputCheck(file: string, access: AccessQuery): (r: Option<Plan>)
    ensures r.None? <==> file == "" || (access.AclReturned? && WritePermitted(access.acl))
    ensures r.Some? ==> r.value.Reject? && (r.value.code == 2 <==> access.AclThrows?) && (r.value.code == 1 <==> access.AclReturned?)
  {
    if file == "" then None
    else if access.AclThrows? then Some(Reject(2, ErrorLine(2, access.message)))
    else if !WritePermitted(access.acl) then
      Some(Reject(1, ErrorLine(1, "The file could not be written to the path specified " + file)))
    else None
  }

  /** The remaining checks: container files (3), operation (4) and the
      operation's parameter (5, 6, 7). */
  function QueryCheck(sink: Sink, dir: seq<ContainerFile>, datapath: string, operation: string, parameter: string,
                      lib: Library): (p: Plan)
    ensures p.Reject? ==> 3 <= p.code <= 7
    ensures p.Run? ==> p.sink == sink && |GetFiles(dir, lib.fileRegex)| > 0
    ensures (p.Reject? && p.code == 3) <==> |GetFiles(dir, lib.fileRegex)| == 0
    ensures (p.Reject? && p.code == 4) <==> |GetFiles(dir, lib.fileRegex)| > 0 && OperationOf(operation).None?
    ensures (p.Reject? && p.code == 5) <==> (|GetFiles(dir, lib.fileRegex)| > 0
                && OperationOf(operation) == Some(GetBlocksName) && lib.parseDate(parameter).None?)
    ensures (p.Reject? && p.code == 6) <==> (|GetFiles(dir, lib.fileRegex)| > 0
                && OperationOf(operation) == Some(GetBlockTransactionsName) && |parameter| != 64)
    ensures (p.Reject? && p.code == 7) <==> (|GetFiles(dir, lib.fileRegex)| > 0
                && OperationOf(operation) == Some(GetAddressTransactionsName) && |parameter| != 34)
    ensures p.Run? && p.query.ListBlocks? ==>
              OperationOf(operation) == Some(GetBlocksName) && lib.parseDate(parameter) == Some(p.query.from)
    ensures p.Run? && p.query.BlockDetail? ==>
              OperationOf(operation) == Some(GetBlockTransactionsName) && p.query.hashText == parameter && |parameter| == 64
    ensures p.Run? && p.query.AddressDetail? ==>
              OperationOf(operation) == Some(GetAddressTransactionsName) && p.query.address == parameter && |parameter| == 34
  {
    if |GetFiles(dir, lib.fileRegex)| == 0 then
      Reject(3, ErrorLine(3, "Blockchain files are not available in: " + datapath))
    else match OperationOf(operation)
      case None => Reject(4, ErrorLine(4, "Unknown operation " + operation))
      case Some(GetBlocksName) =>
        (match lib.parseDate(parameter)
         case Some(from) => Run(sink, ListBlocks(from))
         case None => Reject(5, ErrorLine(5, "Invalid date " + parameter)))
      case Some(GetBlockTransactionsName) =>
        if |parameter| == 64 then Run(sink, BlockDetail(parameter))
        else Reject(6, ErrorLine(6, "Invalid block hash " + parameter))
      case Some(GetAddressTransactionsName) =>
        if |parameter| == 34 then Run(sink, AddressDetail(parameter))
        else Reject(7, ErrorLine(7, "Invalid address " + parameter))
  }

  /** The console line of an exception caught around a query. */
  const QueryFailed: string := ErrorLine(2, "")

  function ConsoleLines(rows: seq<Row>): seq<string>
  {
    if rows == [] then [] else ConsoleLines(rows[..|rows| - 1]) + [ConsoleLine(rows[|rows| - 1])]
  }

  function CsvLines(rows: seq<Row>): seq<string>
  {
    if rows == [] then [] else CsvLines(rows[..|rows| - 1]) + [CsvLine(rows[|rows| - 1])]
  }

  lemma ConsoleLinesStep(rows: seq<Row>, i: nat)
    requires i < |rows|
    ensures ConsoleLines(rows[..i + 1]) == ConsoleLines(rows[..i]) + [ConsoleLine(rows[i])]
  {
    assert rows[..i + 1][..i] == rows[..i];
  }

  lemma CsvLinesStep(rows: seq<Row>, i: nat)
    requires i < |rows|
    ensures CsvLines(rows[..i + 1]) == CsvLines(rows[..i]) + [CsvLine(rows[i])]
  {
    assert rows[..i + 1][..i] == rows[..i];
  }

  /** The rows handed to the console provider, one WriteLine each. */
  method EmitToConsole(rows: seq<Row>, console: ConsoleOutputProvider)
    modifies console
    ensures console.printed == old(console.printed) + ConsoleLines(rows)
  {
    for i := 0 to |rows|
      invariant console.printed == old(console.printed) + ConsoleLines(rows[..i])
    {
      ConsoleLinesStep(rows, i);
      console.WriteFields(rows[i]);
      AppendAssociative(old(console.printed), ConsoleLines(rows[..i]), [ConsoleLine(rows[i])]);
    }
    assert rows[..|rows|] == rows;
  }

  /** The rows handed to the CSV provider, one WriteLine each. */
  method EmitToCsv(rows: seq<Row>, csv: CsvOutputProvider)
    modifies csv
    ensures csv.lines == old(csv.lines) + CsvLines(rows)
  {
    for i := 0 to |rows|
      invariant csv.lines == old(csv.lines) + CsvLines(rows[..i])
    {
      CsvLinesStep(rows, i);
      csv.WriteFields(rows[i]);
      AppendAssociative(old(csv.lines), CsvLines(rows[..i]), [CsvLine(rows[i])]);
    }
    assert rows[..|rows|] == rows;
  }

  /** A query's rows handed to whichever provider Execute chose, then the
      console line of an exception that cut the query short. */
  method Report(rows: seq<Row>, failed: bool, console: ConsoleOutputProvider, csv: CsvOutputProvider?)
    modifies console, csv
    ensures csv != null ==> csv.lines == old(csv.lines) + CsvLines(rows)
    ensures console.printed == old(console.printed) + (if csv == null then ConsoleLines(rows) else [])
                                                    + (if failed then [QueryFailed] else [])
  {
    if csv == null {
      EmitToConsole(rows, console);
    } else {
      EmitToCsv(rows, csv);
    }
    ghost var shown := console.printed;
    if failed {
      console.WriteMessage(QueryFailed);
    }
    assert console.printed == shown + (if failed then [QueryFailed] else []);
  }

  /** The store once a run's scan records are drained into it. */
  function ScannedStore(s: Storage, q: seq<Record>, dir: seq<ContainerFile>, fileRegex: string -> Option<Digits>): Storage
  {
    Drain(s, q + Records(Visits(ScanOrder(dir, fileRegex))))
  }

  /** The block index over the container files. */
  function ScannedIndex(dir: seq<ContainerFile>, fileRegex: string -> Option<Digits>): BlockIndex
  {
    BlockIndexOf(AllBlocks(GetFiles(dir, fileRegex)))
  }

  /** A second run over the same container files, started with an empty
      queue, leaves every key of the store reading as the first run left it. */
  lemma RerunStable(s: Storage, dir: seq<ContainerFile>, fileRegex: string -> Option<Digits>, key: Bytes)
    ensures var once := ScannedStore(s, [], dir, fileRegex);
            Get(ScannedStore(once, [], dir, fileRegex), key) == Get(once, key)
  {
    var rs := Records(Visits(ScanOrder(dir, fileRegex)));
    assert [] + rs == rs;
    DrainIdempotent(s, rs, key);
  }

  /** An address that no visited input or output shows gives no
      candidate, so the address query writes nothing and does not fail. */
  lemma UnseenAddressNoRows(s: Storage, idx: BlockIndex, lib: Library, vs: seq<Visit>, address: string, order: seq<Hash>)
    requires forall i, j :: 0 <= i < |vs| && 0 <= j < |vs[i].tx.inputs| ==>
               AddressText(vs[i].tx.inputs[j].sigAddress) != address
    requires forall i, j :: 0 <= i < |vs| && 0 <= j < |vs[i].tx.outputs| ==>
               AddressText(vs[i].tx.outputs[j].address) != address
    requires |order| <= |Contributions(vs, address)|
    ensures order == [] && Sequence(CandidateEmissions(s, idx, lib, order)) == Nothing
  {
    UnseenAddressNoCandidates(address, EmptyScan, vs);
    CandidatesCollected(address, EmptyScan, vs);
    assert Contributions(vs, address) == {};
  }

  // ---------------------------------------------------------------------
  // The engine

  class BCQuery {
    /** Records waiting to be indexed (the concurrent queue). */
    var queue: seq<Record>
    /** The persistent index store; it outlives a run. */
    var storage: Storage
    /** The in-memory block index (IndexedBlockStore). */
    var index: BlockIndex

    /** A fresh engine over the store as earlier runs left it. */
    constructor (persisted: Storage)
      ensures queue == [] && storage == persisted && index == map[]
    {
      queue := [];
      storage := persisted;
      index := map[];
    }

    /** Drain the queue into the store, never overwriting a key that reads
        non-empty; the outer loop counts its passes, drained or not, and
        ends after the eleventh. */
    method WatchQueue()
      modifies this`queue, this`storage
      ensures queue == []
      ensures storage == Drain(old(storage), old(queue))
    {
      var stop := false;
      var stopCounter := 0;
      while !stop
        invariant 0 <= stopCounter <= 11
        invariant stop <==> stopCounter > 10
        invariant stopCounter > 0 ==> queue == []
        invariant Drain(storage, queue) == Drain(old(storage), old(queue))
        decreases 11 - stopCounter
      {
        while queue != []
          invariant Drain(storage, queue) == Drain(old(storage), old(queue))
          decreases |queue|
        {
          var queueItem := queue[0];
          queue := queue[1..];
          if |Get(storage, queueItem.key)| == 0 {
            storage := storage[queueItem.key := queueItem.value];
          }
        }
        stopCounter := stopCounter + 1;
        if stopCounter > 10 {
          stop := true;
        }
      }
    }

    /** The worker started for one file: callback, then the two records, per visit. */
    method ScanFile(file: ContainerFile, cb: Callback, st0: ScanState)
      returns (st: ScanState)
      modifies this`queue
      ensures queue == old(queue) + Records(FileVisits(file))
      ensures st == Fold(cb, st0, FileVisits(file))
    {
      var vs := FileVisits(file);
      st := st0;
      for j := 0 to |vs|
        invariant queue == old(queue) + Records(vs[..j])
        invariant st == Fold(cb, st0, vs[..j])
      {
        assert vs[..j + 1] == vs[..j] + [vs[j]];
        RecordsStep(vs[..j], vs[j]);
        FoldStep(cb, st0, vs[..j], vs[j]);
        st := OnVisit(cb, st, vs[j]);
        queue := queue + VisitRecords(vs[j]);
        AppendAssociative(old(queue), Records(vs[..j]), VisitRecords(vs[j]));
      }
      assert vs[..|vs|] == vs;
    }

    /** Visit every transaction of every container file, files in
        descending full-name order: run the callback, then queue the two
        index records. */
    method Runner(dir: seq<ContainerFile>, fileRegex: string -> Option<Digits>, cb: Callback, st0: ScanState)
      returns (st: ScanState)
      modifies this`queue
      ensures queue == old(queue) + Records(Visits(ScanOrder(dir, fileRegex)))
      ensures st == Fold(cb, st0, Visits(ScanOrder(dir, fileRegex)))
    {
      var files := ScanOrder(dir, fileRegex);
      st := ScanFiles(files, cb, st0);
    }

    /** The per-file tasks, one file after the other. */
    method ScanFiles(files: seq<ContainerFile>, cb: Callback, st0: ScanState)
      returns (st: ScanState)
      modifies this`queue
      ensures queue == old(queue) + Records(Visits(files))
      ensures st == Fold(cb, st0, Visits(files))
    {
      st := st0;
      for i := 0 to |files|
        invariant queue == old(queue) + Records(Visits(files[..i]))
        invariant st == Fold(cb, st0, Visits(files[..i]))
      {
        ScanStep(files, i, cb, st0);
        st := ScanFile(files[i], cb, st);
        AppendAssociative(old(queue), Records(Visits(files[..i])), Records(FileVisits(files[i])));
      }
      assert files[..|files|] == files;
    }

    /** Index one file's blocks. */
    method IndexFile(file: ContainerFile, ghost prior: seq<Block>)
      requires index == BlockIndexOf(prior)
      modifies this`index
      ensures index == BlockIndexOf(prior + file.blocks)
    {
      var blocks := file.blocks;
      assert prior + blocks[..0] == prior;
      for j := 0 to |blocks|
        invariant index == BlockIndexOf(prior + blocks[..j])
      {
        assert prior + blocks[..j + 1] == (prior + blocks[..j]) + [blocks[j]];
        BlockIndexStep(prior + blocks[..j], blocks[j]);
        index := index[blocks[j].hash := blocks[j]];
      }
      assert blocks[..|blocks|] == blocks;
    }

    /** Put every block of the container files under its hash. */
    method PrepareIndex(dir: seq<ContainerFile>, fileRegex: string -> Option<Digits>)
      modifies this`index
      ensures index == BlockIndexOf(AllBlocks(GetFiles(dir, fileRegex)))
    {
      var files := GetFiles(dir, fileRegex);
      index := map[];
      for i := 0 to |files|
        invariant index == BlockIndexOf(AllBlocks(files[..i]))
      {
        IndexFile(files[i], AllBlocks(files[..i]));
        AllBlocksStep(files, i);
      }
      assert files[..|files|] == files;
    }

    /** List the blocks whose day is not before `fromDate`'s, each once. */
    method GetBlocks(dir: seq<ContainerFile>, fromDate: nat, lib: Library) returns (rows: seq<Row>)
      modifies this`queue, this`storage
      ensures rows == Fold(ListSince(fromDate, lib), EmptyScan, Visits(ScanOrder(dir, lib.fileRegex))).rows
      ensures queue == []
      ensures storage == ScannedStore(old(storage), old(queue), dir, lib.fileRegex)
    {
      var st := Runner(dir, lib.fileRegex, ListSince(fromDate, lib), EmptyScan);
      WatchQueue();
      rows := st.rows;
    }

    /** Every transaction of one block, with its inputs joined to the
        outputs they spend. */
    method GetBlockTransactions(dir: seq<ContainerFile>, hashText: string, lib: Library)
      returns (rows: seq<Row>, failed: bool)
      modifies this
      ensures queue == []
      ensures storage == ScannedStore(old(storage), old(queue), dir, lib.fileRegex)
      ensures index == ScannedIndex(dir, lib.fileRegex)
      ensures Emission(rows, failed) == BlockEmission(storage, index, lib, hashText)
    {
      var _ := Runner(dir, lib.fileRegex, Ignore, EmptyScan);
      WatchQueue();
      PrepareIndex(dir, lib.fileRegex);
      rows, failed := BlockTransactionRows(storage, index, lib, hashText);
    }

    /** Every transaction that pays to `address` or whose input is signed
        from it, found through the candidates the scan collected. */
    method GetAddressTransactions(dir: seq<ContainerFile>, address: string, lib: Library)
      returns (rows: seq<Row>, failed: bool, ghost order: seq<Hash>)
      modifies this
      ensures queue == []
      ensures storage == ScannedStore(old(storage), old(queue), dir, lib.fileRegex)
      ensures index == ScannedIndex(dir, lib.fileRegex)
      ensures Emission(rows, failed) == Sequence(CandidateEmissions(storage, index, lib, order))
      ensures forall i, j :: 0 <= i < j < |order| ==> order[i] != order[j]
      ensures forall i :: 0 <= i < |order| ==> order[i] in Contributions(Visits(ScanOrder(dir, lib.fileRegex)), address)
      ensures !failed ==> forall h :: h in Contributions(Visits(ScanOrder(dir, lib.fileRegex)), address) ==> h in order
      ensures |order| <= |Contributions(Visits(ScanOrder(dir, lib.fileRegex)), address)|
    {
      var st := Runner(dir, lib.fileRegex, CollectFor(address), EmptyScan);
      CandidatesCollected(address, EmptyScan, Visits(ScanOrder(dir, lib.fileRegex)));
      WatchQueue();
      PrepareIndex(dir, lib.fileRegex);
      rows, failed, order := AddressTransactionRows(storage, index, lib, st.candidates);
    }
  
    /** The list-blocks query and its rows written. */
    method RunListBlocks(from: nat, dir: seq<ContainerFile>, lib: Library,
                         console: ConsoleOutputProvider, csv: CsvOutputProvider?)
      returns (ghost rows: seq<Row>)
      modifies this, console, csv
      ensures csv != null ==> csv.lines == old(csv.lines) + CsvLines(rows)
      ensures console.printed == old(console.printed) + (if csv == null then ConsoleLines(rows) else [])
      ensures rows == Fold(ListSince(from, lib), EmptyScan, Visits(ScanOrder(dir, lib.fileRegex))).rows
      ensures queue == [] && storage == ScannedStore(old(storage), old(queue), dir, lib.fileRegex)
      ensures index == old(index)
    {
      var listed := GetBlocks(dir, from, lib);
      Report(listed, false, console, csv);
      rows := listed;
    }

    /** The block-detail query, its rows written, then the console line of
        an exception that cut it short. */
    method RunBlockDetail(hashText: string, dir: seq<ContainerFile>, lib: Library,
                          console: ConsoleOutputProvider, csv: CsvOutputProvider?)
      returns (ghost rows: seq<Row>, ghost failed: bool)
      modifies this, console, csv
      ensures csv != null ==> csv.lines == old(csv.lines) + CsvLines(rows)
      ensures console.printed == old(console.printed) + (if csv == null then ConsoleLines(rows) else [])
                                                      + (if failed then [QueryFailed] else [])
      ensures Emission(rows, failed) == BlockEmission(ScannedStore(old(storage), old(queue), dir, lib.fileRegex),
                                                      ScannedIndex(dir, lib.fileRegex), lib, hashText)
      ensures queue == [] && storage == ScannedStore(old(storage), old(queue), dir, lib.fileRegex)
      ensures index == ScannedIndex(dir, lib.fileRegex)
    {
      var written, thrown := GetBlockTransactions(dir, hashText, lib);
      Report(written, thrown, console, csv);
      rows, failed := written, thrown;
    }

    /** The address query, its rows written, then the console line of an
        exception that cut it short. */
    method RunAddressDetail(address: string, dir: seq<ContainerFile>, lib: Library,
                            console: ConsoleOutputProvider, csv: CsvOutputProvider?)
      returns (ghost rows: seq<Row>, ghost failed: bool, ghost order: seq<Hash>)
      modifies this, console, csv
      ensures csv != null ==> csv.lines == old(csv.lines) + CsvLines(rows)
      ensures console.printed == old(console.printed) + (if csv == null then ConsoleLines(rows) else [])
                                                      + (if failed then [QueryFailed] else [])
      ensures Emission(rows, failed) == Sequence(CandidateEmissions(ScannedStore(old(storage), old(queue), dir, lib.fileRegex),
                                                                    ScannedIndex(dir, lib.fileRegex), lib, order))
      ensures forall i, j :: 0 <= i < j < |order| ==> order[i] != order[j]
      ensures forall i :: 0 <= i < |order| ==> order[i] in Contributions(Visits(ScanOrder(dir, lib.fileRegex)), address)
      ensures !failed ==> forall h :: h in Contributions(Visits(ScanOrder(dir, lib.fileRegex)), address) ==> h in order
      ensures |order| <= |Contributions(Visits(ScanOrder(dir, lib.fileRegex)), address)|
      ensures queue == [] && storage == ScannedStore(old(storage), old(queue), dir, lib.fileRegex)
      ensures index == ScannedIndex(dir, lib.fileRegex)
    {
      var written, thrown;
      written, thrown, order := GetAddressTransactions(dir, address, lib);
      Report(written, thrown, console, csv);
      rows, failed := written, thrown;
    }

    /** The output-file check; when it passes with a file, the CSV provider. */
    method CheckOutput(file: string, access: AccessQuery, console: ConsoleOutputProvider, csvExisting: seq<string>)
      returns (csv: CsvOutputProvider?, rejection: Option<Plan>)
      modifies console
      ensures rejection == OutputCheck(file, access)
      ensures csv != null <==> file != "" && rejection.None?
      ensures csv != null ==> fresh(csv) && csv.filepath == file && csv.lines == csvExisting
      ensures rejection.Some? ==> console.printed == old(console.printed) + [rejection.value.message]
      ensures rejection.None? ==> console.printed == old(console.printed)
    {
      csv, rejection := null, None;
      if file != "" {
        if access.AclThrows? {
          rejection := Some(Reject(2, ErrorLine(2, access.message)));
          console.WriteMessage(rejection.value.message);
          return;
        }
        var permitted := HasWritePermissionOnDir(access.acl);
        if !permitted {
          rejection := Some(Reject(1, ErrorLine(1, "The file could not be written to the path specified " + file)));
          console.WriteMessage(rejection.value.message);
          return;
        }
        csv := new CsvOutputProvider(file, csvExisting);
      }
    }

    /** The container-file, operation and parameter checks. */
    method CheckQuery(sink: Sink, dir: seq<ContainerFile>, datapath: string, operation: string, parameter: string,
                      lib: Library, console: ConsoleOutputProvider)
      returns (plan: Plan)
      modifies console
      ensures plan == QueryCheck(sink, dir, datapath, operation, parameter, lib)
      ensures plan.Reject? ==> console.printed == old(console.printed) + [plan.message]
      ensures plan.Run? ==> console.printed == old(console.printed)
    {
      var files := GetFiles(dir, lib.fileRegex);
      if |files| <= 0 {
        plan := Reject(3, ErrorLine(3, "Blockchain files are not available in: " + datapath));
      } else {
        var op := OperationOf(operation);
        if op.None? {
          plan := Reject(4, ErrorLine(4, "Unknown operation " + operation));
        } else {
          match op.value
          case GetBlocksName =>
            var from := lib.parseDate(parameter);
            if from.None? {
              plan := Reject(5, ErrorLine(5, "Invalid date " + parameter));
            } else {
              plan := Run(sink, ListBlocks(from.value));
            }
          case GetBlockTransactionsName =>
            if |parameter| != 64 {
              plan := Reject(6, ErrorLine(6, "Invalid block hash " + parameter));
            } else {
              plan := Run(sink, BlockDetail(parameter));
            }
          case GetAddressTransactionsName =>
            if |parameter| != 34 {
              plan := Reject(7, ErrorLine(7, "Invalid address " + parameter));
            } else {
              plan := Run(sink, AddressDetail(parameter));
            }
        }
      }
      if plan.Reject? {
        console.WriteMessage(plan.message);
      }
    }

    /** Execute's checks in order. A rejection prints its line; a passed
        output-file check opens the CSV provider. */
    method Check(dir: seq<ContainerFile>, datapath: string, file: string, operation: string, parameter: string,
                 access: AccessQuery, lib: Library, console: ConsoleOutputProvider, csvExisting: seq<string>)
      returns (csv: CsvOutputProvider?, plan: Plan)
      modifies console
      ensures plan == Validate(file, access, dir, datapath, operation, parameter, lib)
      ensures csv != null <==> file != "" && access.AclReturned? && WritePermitted(access.acl)
      ensures csv != null ==> fresh(csv) && csv.filepath == file && csv.lines == csvExisting
      ensures plan.Reject? ==> console.printed == old(console.printed) + [plan.message]
      ensures plan.Run? ==> console.printed == old(console.printed)
    {
      var rejection;
      csv, rejection := CheckOutput(file, access, console, csvExisting);
      if rejection.Some? {
        plan := rejection.value;
        return;
      }
      plan := CheckQuery(if file == "" then ToConsole else ToCsv(file), dir, datapath, operation, parameter, lib, console);
    }

    /** Validate the arguments, choose the output provider, run the query
        and write its rows; every rejection and every exception caught
        around a query becomes one console line. */
    method Execute(dir: seq<ContainerFile>, datapath: string, file: string, operation: string, parameter: string,
                   access: AccessQuery, lib: Library, console: ConsoleOutputProvider, csvExisting: seq<string>)
      returns (csv: CsvOutputProvider?, ghost rows: seq<Row>, ghost failed: bool, ghost order: seq<Hash>)
      modifies this, console
      ensures csv != null <==> file != "" && access.AclReturned? && WritePermitted(access.acl)
      ensures csv != null ==> fresh(csv) && csv.filepath == file && csv.lines == csvExisting + CsvLines(rows)
      ensures var p := Validate(file, access, dir, datapath, operation, parameter, lib);
        && (p.Reject? ==> rows == [] && !failed && console.printed == old(console.printed) + [p.message])
        && (p.Reject? ==> queue == old(queue) && storage == old(storage) && index == old(index))
        && (p.Run? ==> queue == [] && storage == ScannedStore(old(storage), old(queue), dir, lib.fileRegex))
        && (p.Run? ==> index == if p.query.ListBlocks? then old(index) else ScannedIndex(dir, lib.fileRegex))
        && (p.Run? ==> console.printed == old(console.printed) + (if csv == null then ConsoleLines(rows) else [])
                                                     + (if failed then [QueryFailed] else []))
        && (p.Run? && p.query.ListBlocks? ==>
              !failed && rows == Fold(ListSince(p.query.from, lib), EmptyScan, Visits(ScanOrder(dir, lib.fileRegex))).rows)
        && (p.Run? && p.query.BlockDetail? ==>
              Emission(rows, failed) == BlockEmission(ScannedStore(old(storage), old(queue), dir, lib.fileRegex),
                                                      ScannedIndex(dir, lib.fileRegex), lib, parameter))
        && (p.Run? && p.query.AddressDetail? ==>
              && Emission(rows, failed) == Sequence(CandidateEmissions(ScannedStore(old(storage), old(queue), dir, lib.fileRegex),
                                                                       ScannedIndex(dir, lib.fileRegex), lib, order))
              && (forall i, j :: 0 <= i < j < |order| ==> order[i] != order[j])
              && (forall i :: 0 <= i < |order| ==> order[i] in Contributions(Visits(ScanOrder(dir, lib.fileRegex)), parameter))
              && (!failed ==> forall h :: h in Contributions(Visits(ScanOrder(dir, lib.fileRegex)), parameter) ==> h in order)
              && |order| <= |Contributions(Visits(ScanOrder(dir, lib.fileRegex)), parameter)|)
    {
      rows, failed, order := [], false, [];
      var plan;
      csv, plan := Check(dir, datapath, file, operation, parameter, access, lib, console, csvExisting);
      if plan.Run? {
        match plan.query
        case ListBlocks(from) =>
          rows := RunListBlocks(from, dir, lib, console, csv);
        case BlockDetail(hashText) =>
          rows, failed := RunBlockDetail(hashText, dir, lib, console, csv);
        case AddressDetail(address) =>
          rows, failed, order := RunAddressDetail(address, dir, lib, console, csv);
      }
    }
  }
}
