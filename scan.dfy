/** What one scan of the container files produces (BCQuery.Runner and the
    callbacks the three queries give it): the (block, transaction) pairs in
    visiting order, the two index records queued for each, and the state the
    callbacks build from them. */
module Scan {
  import opened Wrappers
  import opened Encoding
  import opened Chain
  import opened Store

  /** One callback invocation: the file's full name, the block, the transaction. */
  datatype Visit = Visit(path: string, block: Block, tx: Transaction)

  function BlockVisits(path: string, b: Block): seq<Visit>
  {
    seq(|b.transactions|, i requires 0 <= i < |b.transactions| => Visit(path, b, b.transactions[i]))
  }

  function BlocksVisits(path: string, blocks: seq<Block>): seq<Visit>
  {
    if blocks == [] then [] else BlockVisits(path, blocks[0]) + BlocksVisits(path, blocks[1..])
  }

  /** EnumerateFile(file).SelectMany(block => block.Transactions): every
      transaction of every block of the file, in file order. */
  function FileVisits(f: ContainerFile): seq<Visit>
  {
    BlocksVisits(f.fullName, f.blocks)
  }

  function TransactionCount(blocks: seq<Block>): nat
  {
    if blocks == [] then 0 else |blocks[0].transactions| + TransactionCount(blocks[1..])
  }

  /** A file yields one visit per (block, transaction) pair of it, and no other. */
  lemma {:induction false} FileVisitsExact(path: string, blocks: seq<Block>)
    ensures |BlocksVisits(path, blocks)| == TransactionCount(blocks)
    ensures forall v :: v in BlocksVisits(path, blocks) <==>
              v.path == path && v.block in blocks && v.tx in v.block.transactions
  {
    if blocks != [] {
      FileVisitsExact(path, blocks[1..]);
      var head := BlockVisits(path, blocks[0]);
      forall v ensures v in BlocksVisits(path, blocks) <==>
                       v.path == path && v.block in blocks && v.tx in v.block.transactions
      {
        if v.path == path && v.block == blocks[0] && v.tx in v.block.transactions {
          var i :| 0 <= i < |blocks[0].transactions| && blocks[0].transactions[i] == v.tx;
          assert head[i] == v;
        }
        if v.block in blocks && v.block != blocks[0] {
          assert v.block in blocks[1..];
        }
      }
    }
  }

  /** The visits of several files, file after file. */
  function Visits(files: seq<ContainerFile>): seq<Visit>
  {
    if files == [] then [] else Visits(files[..|files| - 1]) + FileVisits(files[|files| - 1])
  }

  // ---------------------------------------------------------------------
  // Index records

  /** The two records queued per visit: transaction hash to block hash, then
      block hash to the UTF-8 bytes of the file's full name. */
  function VisitRecords(v: Visit): seq<Record>
  {
    [Record(v.tx.hash, v.block.hash), Record(v.block.hash, Utf8Encode(v.path))]
  }

  function Records(vs: seq<Visit>): seq<Record>
  {
    if vs == [] then [] else Records(vs[..|vs| - 1]) + VisitRecords(vs[|vs| - 1])
  }

  lemma {:induction false} RecordsAppend(a: seq<Visit>, b: seq<Visit>)
    ensures Records(a + b) == Records(a) + Records(b)
  {
    if b == [] {
      assert a + b == a;
    } else {
      assert (a + b)[..|a + b| - 1] == a + b[..|b| - 1];
      RecordsAppend(a, b[..|b| - 1]);
    }
  }

  /** Exactly two records per visit, in visiting order, the transaction's first. */
  lemma {:induction false} RecordsShape(vs: seq<Visit>)
    ensures |Records(vs)| == 2 * |vs|
    ensures forall i :: 0 <= i < |vs| ==>
              Records(vs)[2 * i] == Record(vs[i].tx.hash, vs[i].block.hash)
              && Records(vs)[2 * i + 1] == Record(vs[i].block.hash, Utf8Encode(vs[i].path))
  {
    if vs != [] {
      var front := vs[..|vs| - 1];
      RecordsShape(front);
      forall i | 0 <= i < |vs|
        ensures Records(vs)[2 * i] == Record(vs[i].tx.hash, vs[i].block.hash)
        ensures Records(vs)[2 * i + 1] == Record(vs[i].block.hash, Utf8Encode(vs[i].path))
      {
        if i < |front| {
          assert vs[i] == front[i];
        }
      }
    }
  }

  /** After the scan's records are drained into a store that had no value
      for a transaction hash, that hash reads as the hash of the block of
      its first visit, provided no block hash equals it. */
  lemma ScanIndexesTransaction(s: Storage, vs: seq<Visit>, i: nat)
    requires i < |vs| && |Get(s, vs[i].tx.hash)| == 0
    requires forall j :: 0 <= j < i ==> vs[j].tx.hash != vs[i].tx.hash
    requires forall j :: 0 <= j < |vs| ==> vs[j].block.hash != vs[i].tx.hash
    ensures Get(Drain(s, Records(vs)), vs[i].tx.hash) == vs[i].block.hash
  {
    RecordsShape(vs);
    var q := Records(vs);
    assert q[2 * i] == Record(vs[i].tx.hash, vs[i].block.hash);
    forall j | 0 <= j < 2 * i ensures q[j].key != vs[i].tx.hash {
      var k := j / 2;
      if j == 2 * k {
        assert q[2 * k] == Record(vs[k].tx.hash, vs[k].block.hash);
      } else {
        assert j == 2 * k + 1;
        assert q[2 * k + 1] == Record(vs[k].block.hash, Utf8Encode(vs[k].path));
      }
    }
    FirstWriteWins(s, q, 2 * i);
  }

  /** Likewise a block hash reads as the UTF-8 bytes of the full name of the
      file of its first visit, which therefore decode back to that name. */
  lemma ScanIndexesPath(s: Storage, vs: seq<Visit>, i: nat)
    requires i < |vs| && vs[i].path != [] && |Get(s, vs[i].block.hash)| == 0
    requires forall j :: 0 <= j < i ==> vs[j].block.hash != vs[i].block.hash
    requires forall j :: 0 <= j < |vs| ==> vs[j].tx.hash != vs[i].block.hash
    ensures Get(Drain(s, Records(vs)), vs[i].block.hash) == Utf8Encode(vs[i].path)
    ensures Utf8Decode(Get(Drain(s, Records(vs)), vs[i].block.hash)) == vs[i].path
  {
    RecordsShape(vs);
    var q := Records(vs);
    assert q[2 * i + 1] == Record(vs[i].block.hash, Utf8Encode(vs[i].path));
    forall j | 0 <= j < 2 * i + 1 ensures q[j].key != vs[i].block.hash {
      var k := j / 2;
      if j == 2 * k {
        assert q[2 * k] == Record(vs[k].tx.hash, vs[k].block.hash);
      } else {
        assert j == 2 * k + 1;
        assert q[2 * k + 1] == Record(vs[k].block.hash, Utf8Encode(vs[k].path));
      }
    }
    FirstWriteWins(s, q, 2 * i + 1);
    Utf8RoundTrip(vs[i].path);
  }

  // ---------------------------------------------------------------------
  // Callbacks

  /** The callback a query hands to the scan: none (block detail), the
      list-blocks filter from a date, or the address candidate collector. */
  datatype Callback = Ignore | ListSince(fromDate: nat, lib: Library) | CollectFor(address: string)

  /** What the callbacks build: the block hashes already listed (`check`),
      the candidate transaction hashes (`transactions`) and the rows written. */
  datatype ScanState = ScanState(check: set<Hash>, candidates: set<Hash>, rows: seq<Row>)

  const EmptyScan := ScanState({}, {}, [])

  /** A block is listed when its day is not before the day asked for. */
  predicate Qualifies(b: Block, fromDate: nat)
  {
    Day(b.time) >= Day(fromDate)
  }

  /** The list-blocks row: an empty field, the hash, the date and time, the
      number of transactions. */
  function SummaryRow(b: Block, lib: Library): (row: Row)
    ensures |row| == 4 && row[0] == "" && row[1] == HashText(b.hash)
  {
    ["", HashText(b.hash), lib.shortDate(b.time) + " " + lib.shortTime(b.time),
     DecimalText(|b.transactions|)]
  }

  /** The previous hash of the first input whose address text is `address`. */
  function FirstSpendFrom(inputs: seq<Input>, address: string): (r: Option<Hash>)
    ensures r.None? <==> forall i :: 0 <= i < |inputs| ==> AddressText(inputs[i].sigAddress) != address
    ensures r.Some? ==> exists i :: 0 <= i < |inputs| && r.value == inputs[i].prevHash
                          && AddressText(inputs[i].sigAddress) == address
                          && forall j :: 0 <= j < i ==> AddressText(inputs[j].sigAddress) != address
  {
    if inputs == [] then None
    else if AddressText(inputs[0].sigAddress) == address then Some(inputs[0].prevHash)
    else
      var r := FirstSpendFrom(inputs[1..], address);
      assert forall i :: 1 <= i < |inputs| ==> inputs[i] == inputs[1..][i - 1];
      r
  }

  /** Some output's address text is `address`. */
  predicate PaysTo(tx: Transaction, address: string)
  {
    exists i :: 0 <= i < |tx.outputs| && AddressText(tx.outputs[i].address) == address
  }

  /** The callback body for one visit. */
  function OnVisit(cb: Callback, st: ScanState, v: Visit): ScanState
  {
    match cb
    case Ignore => st
    case ListSince(fromDate, lib) =>
      if v.block.hash !in st.check && Qualifies(v.block, fromDate) then
        st.(check := st.check + {v.block.hash}, rows := st.rows + [SummaryRow(v.block, lib)])
      else st
    case CollectFor(address) =>
      var spent := match FirstSpendFrom(v.tx.inputs, address)
        case Some(h) => st.(candidates := st.candidates + {h})
        case None => st;
      if PaysTo(v.tx, address) then spent.(candidates := spent.candidates + {v.tx.hash}) else spent
  }

  /** The callback run over the visits in order. */
  function Fold(cb: Callback, st: ScanState, vs: seq<Visit>): ScanState
  {
    if vs == [] then st else OnVisit(cb, Fold(cb, st, vs[..|vs| - 1]), vs[|vs| - 1])
  }

  lemma {:induction false} FoldAppend(cb: Callback, st: ScanState, a: seq<Visit>, b: seq<Visit>)
    ensures Fold(cb, st, a + b) == Fold(cb, Fold(cb, st, a), b)
  {
    if b == [] {
      assert a + b == a;
    } else {
      assert (a + b)[..|a + b| - 1] == a + b[..|b| - 1];
      FoldAppend(cb, st, a, b[..|b| - 1]);
    }
  }

  // ---------------------------------------------------------------------
  // Listing blocks: one row per qualifying block hash

  /** The rows whose hash field is `t`. */
  function RowsWithHash(rows: seq<Row>, t: string): nat
  {
    if rows == [] then 0
    else RowsWithHash(rows[..|rows| - 1], t)
         + (if |rows[|rows| - 1]| > 1 && rows[|rows| - 1][1] == t then 1 else 0)
  }

  /** The hashes of the visited blocks that qualify. */
  function QualifyingHashes(vs: seq<Visit>, fromDate: nat): set<Hash>
  {
    if vs == [] then {}
    else QualifyingHashes(vs[..|vs| - 1], fromDate)
         + (if Qualifies(vs[|vs| - 1].block, fromDate) then {vs[|vs| - 1].block.hash} else {})
  }

  lemma {:induction false} QualifyingHashesExact(vs: seq<Visit>, fromDate: nat, h: Hash)
    ensures h in QualifyingHashes(vs, fromDate) <==>
            exists i :: 0 <= i < |vs| && vs[i].block.hash == h && Qualifies(vs[i].block, fromDate)
  {
    if vs != [] {
      var front := vs[..|vs| - 1];
      QualifyingHashesExact(front, fromDate, h);
      if exists i :: 0 <= i < |front| && front[i].block.hash == h && Qualifies(front[i].block, fromDate) {
        var i :| 0 <= i < |front| && front[i].block.hash == h && Qualifies(front[i].block, fromDate);
        assert vs[i] == front[i];
      }
      if exists i :: 0 <= i < |vs| && vs[i].block.hash == h && Qualifies(vs[i].block, fromDate) {
        var i :| 0 <= i < |vs| && vs[i].block.hash == h && Qualifies(vs[i].block, fromDate);
        if i < |front| { assert front[i] == vs[i]; }
      }
    }
  }

  /** Starting with nothing listed, the listed hashes are those of the
      qualifying visited blocks, each listed by exactly one row. */
  lemma {:induction false} ListedOnce(fromDate: nat, lib: Library, vs: seq<Visit>)
    ensures Fold(ListSince(fromDate, lib), EmptyScan, vs).check == QualifyingHashes(vs, fromDate)
    ensures forall h: Hash :: RowsWithHash(Fold(ListSince(fromDate, lib), EmptyScan, vs).rows, HashText(h))
                              == if h in QualifyingHashes(vs, fromDate) then 1 else 0
  {
    if vs != [] {
      var cb := ListSince(fromDate, lib);
      var front, v := vs[..|vs| - 1], vs[|vs| - 1];
      ListedOnce(fromDate, lib, front);
      var before := Fold(cb, EmptyScan, front);
      var after := Fold(cb, EmptyScan, vs);
      if v.block.hash !in before.check && Qualifies(v.block, fromDate) {
        var row := SummaryRow(v.block, lib);
        assert after.rows[..|after.rows| - 1] == before.rows;
        forall h: Hash ensures RowsWithHash(after.rows, HashText(h))
                               == if h in QualifyingHashes(vs, fromDate) then 1 else 0 {
          if row[1] == HashText(h) {
            HashTextInjective(h, v.block.hash);
          }
        }
      }
    }
  }

  /** Every listed row is the summary row of a visited block that qualifies. */
  lemma {:induction false} ListedRowsAreSummaries(fromDate: nat, lib: Library, vs: seq<Visit>, k: nat)
    requires k < |Fold(ListSince(fromDate, lib), EmptyScan, vs).rows|
    ensures exists i :: 0 <= i < |vs| && Qualifies(vs[i].block, fromDate)
                        && Fold(ListSince(fromDate, lib), EmptyScan, vs).rows[k] == SummaryRow(vs[i].block, lib)
  {
    var cb := ListSince(fromDate, lib);
    var front := vs[..|vs| - 1];
    var before := Fold(cb, EmptyScan, front);
    if k < |before.rows| {
      ListedRowsAreSummaries(fromDate, lib, front, k);
      var i :| 0 <= i < |front| && Qualifies(front[i].block, fromDate)
               && before.rows[k] == SummaryRow(front[i].block, lib);
      assert vs[i] == front[i];
    } else {
      assert Fold(cb, EmptyScan, vs).rows[k] == SummaryRow(vs[|vs| - 1].block, lib);
    }
  }

  // ---------------------------------------------------------------------
  // Collecting address candidates

  /** What one visit adds: the funding hash of its first input from the
      address, and its own hash when it pays to the address. */
  function Contribution(v: Visit, address: string): set<Hash>
  {
    (match FirstSpendFrom(v.tx.inputs, address) case Some(h) => {h} case None => {})
    + (if PaysTo(v.tx, address) then {v.tx.hash} else {})
  }

  function Contributions(vs: seq<Visit>, address: string): set<Hash>
  {
    if vs == [] then {} else Contributions(vs[..|vs| - 1], address) + Contribution(vs[|vs| - 1], address)
  }

  /** The candidates are those there before and what every visit adds. */
  lemma {:induction false} CandidatesCollected(address: string, st: ScanState, vs: seq<Visit>)
    ensures Fold(CollectFor(address), st, vs).candidates == st.candidates + Contributions(vs, address)
  {
    if vs != [] {
      CandidatesCollected(address, st, vs[..|vs| - 1]);
    }
  }

  lemma {:induction false} ContributionsExact(vs: seq<Visit>, address: string, h: Hash)
    ensures h in Contributions(vs, address) <==>
            exists i :: 0 <= i < |vs| && h in Contribution(vs[i], address)
  {
    if vs != [] {
      var front := vs[..|vs| - 1];
      ContributionsExact(front, address, h);
      if exists i :: 0 <= i < |front| && h in Contribution(front[i], address) {
        var i :| 0 <= i < |front| && h in Contribution(front[i], address);
        assert vs[i] == front[i];
      }
      if exists i :: 0 <= i < |vs| && h in Contribution(vs[i], address) {
        var i :| 0 <= i < |vs| && h in Contribution(vs[i], address);
        if i < |front| { assert front[i] == vs[i]; }
      }
    }
  }

  /** An address that no visited input or output shows adds no candidate. */
  lemma {:induction false} UnseenAddressNoCandidates(address: string, st: ScanState, vs: seq<Visit>)
    requires forall i, j :: 0 <= i < |vs| && 0 <= j < |vs[i].tx.inputs| ==>
               AddressText(vs[i].tx.inputs[j].sigAddress) != address
    requires forall i, j :: 0 <= i < |vs| && 0 <= j < |vs[i].tx.outputs| ==>
               AddressText(vs[i].tx.outputs[j].address) != address
    ensures Fold(CollectFor(address), st, vs).candidates == st.candidates
  {
    CandidatesCollected(address, st, vs);
    forall h ensures h !in Contributions(vs, address) {
      ContributionsExact(vs, address, h);
    }
  }
}
