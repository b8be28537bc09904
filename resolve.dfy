/** The resolution phase of the block-detail and address-detail queries:
    each transaction input is joined, through the index store and the
    in-memory block index, to the output it spends, and INPUT/OUTPUT rows
    are written. */
module Resolve {
  import opened Wrappers
  import opened Encoding
  import opened Text
  import opened Chain
  import opened Store

  /** The in-memory block index: block hash to block (IndexedBlockStore). */
  type BlockIndex = map<Hash, Block>

  const NotIdentified: string := "<NOT IDENTIFIED>"

  /** The address column: the address text, or the placeholder when that
      text is nothing but white space. */
  function AddressField(a: Option<string>): string
  {
    if AllWhiteSpace(AddressText(a)) then NotIdentified else AddressText(a)
  }

  /** The column as the source tests it: the placeholder exactly when the
      trimmed address text is empty. */
  lemma AddressFieldTrims(a: Option<string>)
    ensures AddressField(a) == if |Trim(AddressText(a))| == 0 then NotIdentified else AddressText(a)
  {
    TrimEmpty(AddressText(a));
  }

  /** `new uint256(storage.Get(key))`: the stored value as a hash; a value
      that is not 32 bytes long (an absent key reads as empty) throws. This
      is the definition; JoinCorrect and ResolveCandidate build on it. */
  function StoredHash(s: Storage, key: Bytes): (r: Option<Hash>)
    ensures r.Some? <==> |Get(s, key)| == 32
    ensures r.Some? ==> r.value == Get(s, key)
  {
    var v := Get(s, key);
    if |v| == 32 then Some(v) else None
  }

  /** The file path recorded for a block: its stored value read as UTF-8. */
  function StoredPath(s: Storage, blockHash: Hash): string
  {
    Utf8Decode(Get(s, blockHash))
  }

  /** Transactions.Where(tx => tx.GetHash() == h).SelectMany(tx => tx.Outputs):
      the outputs of every transaction with that hash, in order. */
  function SpentOutputs(txs: seq<Transaction>, h: Hash): seq<Output>
  {
    if txs == [] then []
    else (if txs[0].hash == h then txs[0].outputs else []) + SpentOutputs(txs[1..], h)
  }

  /** When one transaction of a block has the hash, the outputs searched are its outputs. */
  lemma {:induction false} SpentOutputsOfUnique(txs: seq<Transaction>, h: Hash, k: nat)
    requires k < |txs| && txs[k].hash == h
    requires forall j :: 0 <= j < |txs| && j != k ==> txs[j].hash != h
    ensures SpentOutputs(txs, h) == txs[k].outputs
  {
    if k == 0 {
      NoneSpent(txs[1..], h);
    } else {
      SpentOutputsOfUnique(txs[1..], h, k - 1);
    }
  }

  lemma {:induction false} NoneSpent(txs: seq<Transaction>, h: Hash)
    requires forall j :: 0 <= j < |txs| ==> txs[j].hash != h
    ensures SpentOutputs(txs, h) == []
  {
    if txs != [] {
      NoneSpent(txs[1..], h);
    }
  }

  /** The INPUT row of a spending input, or None when its join throws: no
      32-byte block hash stored for the previous transaction, that block
      missing from the index, or fewer outputs than the index named. The
      file column is that of the block holding the spent output. */
  function InputRow(s: Storage, index: BlockIndex, lib: Library, tx: Transaction, input: Input): (r: Option<Row>)
    ensures r.Some? ==> |r.value| == 6 && r.value[0] == HashText(tx.hash) && r.value[2] == "INPUT"
                        && r.value[4] == HashText(input.prevHash)
  {
    match StoredHash(s, input.prevHash)
    case None => None
    case Some(blockHash) =>
      if blockHash !in index then None
      else
        var tempBlock := index[blockHash];
        var outs := SpentOutputs(tempBlock.transactions, input.prevHash);
        if input.prevIndex >= |outs| then None
        else
          var row := [HashText(tx.hash), StoredPath(s, tempBlock.hash), "INPUT",
                      AddressField(input.sigAddress), HashText(input.prevHash),
                      lib.money(outs[input.prevIndex].value)];
          assert row[0] == HashText(tx.hash) && row[2] == "INPUT" && row[4] == HashText(input.prevHash);
          Some(row)
  }

  /** The OUTPUT row of an output of `tx`, which sits in block `blockHash`.
      This is the field layout itself; TxEmissionShape places the rows. */
  function OutputRow(s: Storage, lib: Library, tx: Transaction, blockHash: Hash, output: Output): (row: Row)
    ensures |row| == 6 && row[2] == "OUTPUT"
    ensures row[0] == row[4] == HashText(tx.hash)
    ensures row[5] == lib.money(output.value)
  {
    [HashText(tx.hash), StoredPath(s, blockHash), "OUTPUT", AddressField(output.address),
     HashText(tx.hash), lib.money(output.value)]
  }

  /** The amount of an INPUT row is the value of output N of the one
      transaction with the previous hash in the block the store names for
      it; the row exists exactly when that output does. */
  lemma JoinCorrect(s: Storage, index: BlockIndex, lib: Library, tx: Transaction, input: Input,
                    blockHash: Hash, k: nat)
    requires StoredHash(s, input.prevHash) == Some(blockHash) && blockHash in index
    requires k < |index[blockHash].transactions| && index[blockHash].transactions[k].hash == input.prevHash
    requires forall j :: 0 <= j < |index[blockHash].transactions| && j != k ==>
               index[blockHash].transactions[j].hash != input.prevHash
    ensures InputRow(s, index, lib, tx, input).Some? <==> input.prevIndex < |index[blockHash].transactions[k].outputs|
    ensures InputRow(s, index, lib, tx, input).Some? ==>
              var row := InputRow(s, index, lib, tx, input).value;
              && |row| == 6 && row[0] == HashText(tx.hash) && row[2] == "INPUT"
              && row[4] == HashText(input.prevHash)
              && row[5] == lib.money(index[blockHash].transactions[k].outputs[input.prevIndex].value)
  {
    SpentOutputsOfUnique(index[blockHash].transactions, input.prevHash, k);
  }

  // ---------------------------------------------------------------------
  // What is written, and whether an exception cut it short

  /** The rows written in order, and whether an exception then ended the query. */
  datatype Emission = Emission(rows: seq<Row>, failed: bool)

  const Nothing := Emission([], false)

  /** `e` and then, unless `e` ended in an exception, `next`. */
  function Then(e: Emission, next: Emission): Emission
  {
    if e.failed then e else Emission(e.rows + next.rows, next.failed)
  }

  /** Several steps one after the other, up to the first exception. */
  function Sequence(es: seq<Emission>): Emission
  {
    if es == [] then Nothing else Then(Sequence(es[..|es| - 1]), es[|es| - 1])
  }

  lemma SequenceStep(es: seq<Emission>, i: nat)
    requires i < |es|
    ensures Sequence(es[..i + 1]) == Then(Sequence(es[..i]), es[i])
  {
    assert es[..i + 1][..i] == es[..i];
  }

  /** After an exception nothing more is written. */
  lemma {:induction false} FailureSticks(es: seq<Emission>, k: nat)
    requires k <= |es| && Sequence(es[..k]).failed
    ensures Sequence(es) == Sequence(es[..k])
  {
    if k < |es| {
      var front := es[..|es| - 1];
      assert front[..k] == es[..k];
      FailureSticks(front, k);
    } else {
      assert es[..k] == es;
    }
  }

  /** Without an exception, the rows of every step, in order. */
  lemma {:induction false} SequenceRows(es: seq<Emission>)
    requires forall i :: 0 <= i < |es| ==> !es[i].failed
    ensures !Sequence(es).failed
    ensures |Sequence(es).rows| == TotalRows(es)
  {
    if es != [] {
      SequenceRows(es[..|es| - 1]);
    }
  }

  function TotalRows(es: seq<Emission>): nat
  {
    if es == [] then 0 else TotalRows(es[..|es| - 1]) + |es[|es| - 1].rows|
  }

  /** One input: no row for a generation input; its row, or an exception. */
  function InputEmission(s: Storage, index: BlockIndex, lib: Library, tx: Transaction, input: Input): (e: Emission)
    ensures |e.rows| == (if IsGeneration(input) || e.failed then 0 else 1)
  {
    if IsGeneration(input) then Nothing
    else match InputRow(s, index, lib, tx, input)
      case Some(row) => Emission([row], false)
      case None => Emission([], true)
  }

  function InputEmissions(s: Storage, index: BlockIndex, lib: Library, tx: Transaction): seq<Emission>
  {
    seq(|tx.inputs|, i requires 0 <= i < |tx.inputs| => InputEmission(s, index, lib, tx, tx.inputs[i]))
  }

  function OutputRows(s: Storage, lib: Library, tx: Transaction, blockHash: Hash): seq<Row>
  {
    seq(|tx.outputs|, i requires 0 <= i < |tx.outputs| => OutputRow(s, lib, tx, blockHash, tx.outputs[i]))
  }

  /** A transaction's rows: its spending inputs in order, then its outputs. */
  function TxEmission(s: Storage, index: BlockIndex, lib: Library, tx: Transaction, blockHash: Hash): Emission
  {
    Then(Sequence(InputEmissions(s, index, lib, tx)), Emission(OutputRows(s, lib, tx, blockHash), false))
  }

  /** The number of inputs that are not generation inputs. */
  function SpendingInputs(inputs: seq<Input>): nat
  {
    if inputs == [] then 0
    else SpendingInputs(inputs[..|inputs| - 1]) + (if IsGeneration(inputs[|inputs| - 1]) then 0 else 1)
  }

  lemma {:induction false} InputsShape(s: Storage, index: BlockIndex, lib: Library, tx: Transaction, k: nat)
    requires k <= |tx.inputs|
    ensures var e := Sequence(InputEmissions(s, index, lib, tx)[..k]);
      && (!e.failed ==> |e.rows| == SpendingInputs(tx.inputs[..k]))
      && |e.rows| <= SpendingInputs(tx.inputs[..k])
      && forall i :: 0 <= i < |e.rows| ==> |e.rows[i]| == 6 && e.rows[i][0] == HashText(tx.hash) && e.rows[i][2] == "INPUT"
  {
    var es := InputEmissions(s, index, lib, tx);
    if k > 0 {
      InputsShape(s, index, lib, tx, k - 1);
      SequenceStep(es, k - 1);
      assert tx.inputs[..k][..k - 1] == tx.inputs[..k - 1];
      var one := es[k - 1];
      assert forall i :: 0 <= i < |one.rows| ==>
        |one.rows[i]| == 6 && one.rows[i][0] == HashText(tx.hash) && one.rows[i][2] == "INPUT";
    }
  }

  /** Unless an exception cuts it short, a transaction yields one INPUT row
      per spending input (none for a generation input), then one OUTPUT row
      per output, in order; rows written before an exception are all INPUT rows. */
  lemma TxEmissionShape(s: Storage, index: BlockIndex, lib: Library, tx: Transaction, blockHash: Hash)
    ensures var e := TxEmission(s, index, lib, tx, blockHash);
      var n := SpendingInputs(tx.inputs);
      && (!e.failed ==> |e.rows| == n + |tx.outputs| && e.rows[n..] == OutputRows(s, lib, tx, blockHash))
      && (e.failed ==> |e.rows| <= n)
      && forall i :: 0 <= i < |e.rows| && i < n ==>
           |e.rows[i]| == 6 && e.rows[i][2] == "INPUT" && e.rows[i][0] == HashText(tx.hash)
  {
    var es := InputEmissions(s, index, lib, tx);
    InputsShape(s, index, lib, tx, |tx.inputs|);
    assert es[..|tx.inputs|] == es && tx.inputs[..|tx.inputs|] == tx.inputs;
    var ie := Sequence(es);
    var outs := OutputRows(s, lib, tx, blockHash);
    var e := TxEmission(s, index, lib, tx, blockHash);
    if !ie.failed {
      assert e.rows == ie.rows + outs;
      assert forall i :: 0 <= i < |ie.rows| ==> e.rows[i] == ie.rows[i];
    } else {
      assert e == ie;
    }
  }

  // ---------------------------------------------------------------------
  // Block transaction detail

  function TxEmissions(s: Storage, index: BlockIndex, lib: Library, txs: seq<Transaction>, blockHash: Hash): seq<Emission>
  {
    seq(|txs|, i requires 0 <= i < |txs| => TxEmission(s, index, lib, txs[i], blockHash))
  }

  /** The block-detail resolution: nothing when the text is not a hash, an
      exception when the index lacks the block, else every transaction's
      rows in order. */
  function BlockEmission(s: Storage, index: BlockIndex, lib: Library, hashText: string): Emission
  {
    match ParseHash(hashText)
    case None => Nothing
    case Some(blockHash) =>
      if blockHash !in index then Emission([], true)
      else Sequence(TxEmissions(s, index, lib, index[blockHash].transactions, blockHash))
  }

  /** One pass of the input loop's join: the block of the spent
      transaction through the store and the index, then the spent output;
      None where the code would throw. The method is the loop body as the
      code runs it; InputRow is its specification. */
  method JoinInput(s: Storage, index: BlockIndex, lib: Library, tx: Transaction, input: Input)
    returns (row: Option<Row>)
    ensures row == InputRow(s, index, lib, tx, input)
  {
    var stored := Get(s, input.prevHash);
    if |stored| != 32 || stored !in index {
      return None;
    }
    var tempBlock := index[stored];
    var outs := SpentOutputs(tempBlock.transactions, input.prevHash);
    if input.prevIndex >= |outs| {
      return None;
    }
    var btcAmount := outs[input.prevIndex].value;
    row := Some([HashText(tx.hash), Utf8Decode(Get(s, tempBlock.hash)), "INPUT",
                 AddressField(input.sigAddress), HashText(input.prevHash), lib.money(btcAmount)]);
  }

  /** The loop over one transaction's inputs: an INPUT row per spending
      input, stopping at the first join that throws. */
  method ResolveInputs(s: Storage, index: BlockIndex, lib: Library, tx: Transaction)
    returns (rows: seq<Row>, failed: bool)
    ensures Emission(rows, failed) == Sequence(InputEmissions(s, index, lib, tx))
  {
    ghost var es := InputEmissions(s, index, lib, tx);
    rows, failed := [], false;
    for i := 0 to |tx.inputs|
      invariant Emission(rows, false) == Sequence(es[..i])
    {
      SequenceStep(es, i);
      var input := tx.inputs[i];
      if input.prevHash != ZeroHash {
        var row := JoinInput(s, index, lib, tx, input);
        if row.None? {
          FailureSticks(es, i + 1);
          return rows, true;
        }
        rows := rows + [row.value];
      }
    }
    assert es[..|tx.inputs|] == es;
  }

  /** The loop over one transaction's outputs: an OUTPUT row each. */
  method ResolveOutputs(s: Storage, lib: Library, tx: Transaction, blockHash: Hash)
    returns (rows: seq<Row>)
    ensures rows == OutputRows(s, lib, tx, blockHash)
  {
    rows := [];
    for j := 0 to |tx.outputs|
      invariant |rows| == j
      invariant forall k :: 0 <= k < j ==> rows[k] == OutputRow(s, lib, tx, blockHash, tx.outputs[k])
    {
      var output := tx.outputs[j];
      var message := [HashText(tx.hash), Utf8Decode(Get(s, blockHash)), "OUTPUT",
                      AddressField(output.address), HashText(tx.hash), lib.money(output.value)];
      rows := rows + [message];
    }
  }

  /** The nested loops over one transaction's inputs and outputs. */
  method ResolveTransaction(s: Storage, index: BlockIndex, lib: Library, tx: Transaction, blockHash: Hash)
    returns (rows: seq<Row>, failed: bool)
    ensures Emission(rows, failed) == TxEmission(s, index, lib, tx, blockHash)
  {
    rows, failed := ResolveInputs(s, index, lib, tx);
    if !failed {
      var outputRows := ResolveOutputs(s, lib, tx, blockHash);
      rows := rows + outputRows;
    }
  }

  /** GetBlockTransactions' resolution: the block's transactions in order,
      stopping at the first exception. */
  method BlockTransactionRows(s: Storage, index: BlockIndex, lib: Library, hashText: string)
    returns (rows: seq<Row>, failed: bool)
    ensures Emission(rows, failed) == BlockEmission(s, index, lib, hashText)
  {
    rows, failed := [], false;
    var parsed := ParseHash(hashText);
    if parsed.None? {
      return;
    }
    var blockHash := parsed.value;
    if blockHash !in index {
      return [], true;
    }
    var txs := index[blockHash].transactions;
    ghost var es := TxEmissions(s, index, lib, txs, blockHash);
    for i := 0 to |txs|
      invariant Emission(rows, false) == Sequence(es[..i])
    {
      SequenceStep(es, i);
      var txRows, txFailed := ResolveTransaction(s, index, lib, txs[i], blockHash);
      rows := rows + txRows;
      if txFailed {
        FailureSticks(es, i + 1);
        return rows, true;
      }
    }
    assert es[..|txs|] == es;
  }

  /** Unless an exception cuts it short, block detail yields one row per
      spending input and per output of every transaction of the block. */
  lemma {:induction false} TxsRowCount(s: Storage, index: BlockIndex, lib: Library, txs: seq<Transaction>, blockHash: Hash)
    ensures !Sequence(TxEmissions(s, index, lib, txs, blockHash)).failed ==>
              |Sequence(TxEmissions(s, index, lib, txs, blockHash)).rows| == RowCount(txs)
  {
    if txs != [] {
      var es := TxEmissions(s, index, lib, txs, blockHash);
      var front := txs[..|txs| - 1];
      assert TxEmissions(s, index, lib, front, blockHash) == es[..|es| - 1];
      TxsRowCount(s, index, lib, front, blockHash);
      TxEmissionShape(s, index, lib, txs[|txs| - 1], blockHash);
    }
  }

  function RowCount(txs: seq<Transaction>): nat
  {
    if txs == [] then 0
    else RowCount(txs[..|txs| - 1]) + SpendingInputs(txs[|txs| - 1].inputs) + |txs[|txs| - 1].outputs|
  }

  // ---------------------------------------------------------------------
  // Address transaction detail

  /** Transactions.Where(tx => tx.GetHash() == h).First(), None when there is none. */
  function FindTransaction(txs: seq<Transaction>, h: Hash): (r: Option<Transaction>)
    ensures r.None? <==> forall i :: 0 <= i < |txs| ==> txs[i].hash != h
    ensures r.Some? ==> exists i :: 0 <= i < |txs| && txs[i] == r.value && r.value.hash == h
                          && forall j :: 0 <= j < i ==> txs[j].hash != h
  {
    if txs == [] then None
    else if txs[0].hash == h then Some(txs[0])
    else
      var r := FindTransaction(txs[1..], h);
      assert forall i :: 1 <= i < |txs| ==> txs[i] == txs[1..][i - 1];
      r
  }

  /** One candidate: its block through the store and the index, the first
      transaction there with its hash, and that transaction's rows; any
      missing link throws. */
  function CandidateEmission(s: Storage, index: BlockIndex, lib: Library, h: Hash): Emission
  {
    match StoredHash(s, h)
    case None => Emission([], true)
    case Some(blockHash) =>
      if blockHash !in index then Emission([], true)
      else match FindTransaction(index[blockHash].transactions, h)
        case None => Emission([], true)
        case Some(tx) => TxEmission(s, index, lib, tx, blockHash)
  }

  function CandidateEmissions(s: Storage, index: BlockIndex, lib: Library, order: seq<Hash>): seq<Emission>
  {
    seq(|order|, i requires 0 <= i < |order| => CandidateEmission(s, index, lib, order[i]))
  }

  lemma CandidateStep(s: Storage, index: BlockIndex, lib: Library, order: seq<Hash>, h: Hash)
    ensures Sequence(CandidateEmissions(s, index, lib, order + [h]))
         == Then(Sequence(CandidateEmissions(s, index, lib, order)), CandidateEmission(s, index, lib, h))
  {
    var es := CandidateEmissions(s, index, lib, order + [h]);
    assert es[..|order|] == CandidateEmissions(s, index, lib, order);
  }

  /** After a clean run over `order`, the rows of one more candidate extend
      the run over `order + [h]`. */
  lemma CandidateAppend(s: Storage, index: BlockIndex, lib: Library, order: seq<Hash>, h: Hash,
                        rows: seq<Row>, more: Emission)
    requires Emission(rows, false) == Sequence(CandidateEmissions(s, index, lib, order))
    requires more == CandidateEmission(s, index, lib, h)
    ensures Emission(rows + more.rows, more.failed) == Sequence(CandidateEmissions(s, index, lib, order + [h]))
  {
    CandidateStep(s, index, lib, order, h);
  }

  /** One pass of GetAddressTransactions' loop body, step by step as the
      code runs it; CandidateEmission is its specification. */
  method ResolveCandidate(s: Storage, index: BlockIndex, lib: Library, txhash: Hash)
    returns (rows: seq<Row>, failed: bool)
    ensures Emission(rows, failed) == CandidateEmission(s, index, lib, txhash)
  {
    var stored := Get(s, txhash);
    if |stored| != 32 || stored !in index {
      return [], true;
    }
    var blockHash: Hash := stored;
    var found := FindTransaction(index[blockHash].transactions, txhash);
    if found.None? {
      return [], true;
    }
    rows, failed := ResolveTransaction(s, index, lib, found.value, blockHash);
  }

  /** GetAddressTransactions' resolution: the candidates in the dictionary's
      (unspecified) key order, each at most once, stopping at the first
      exception; `order` is the order taken. */
  method AddressTransactionRows(s: Storage, index: BlockIndex, lib: Library, candidates: set<Hash>)
    returns (rows: seq<Row>, failed: bool, ghost order: seq<Hash>)
    ensures Emission(rows, failed) == Sequence(CandidateEmissions(s, index, lib, order))
    ensures forall i, j :: 0 <= i < j < |order| ==> order[i] != order[j]
    ensures forall i :: 0 <= i < |order| ==> order[i] in candidates
    ensures !failed ==> forall h :: h in candidates ==> h in order
    ensures |order| <= |candidates|
  {
    rows, failed, order := [], false, [];
    var remaining := candidates;
    while remaining != {}
      invariant remaining <= candidates
      invariant |order| + |remaining| == |candidates|
      invariant forall i :: 0 <= i < |order| ==> order[i] in candidates && order[i] !in remaining
      invariant forall h :: h in candidates && h !in remaining ==> h in order
      invariant forall i, j :: 0 <= i < j < |order| ==> order[i] != order[j]
      invariant Emission(rows, false) == Sequence(CandidateEmissions(s, index, lib, order))
      decreases remaining
    {
      var txhash :| txhash in remaining;
      remaining := remaining - {txhash};
      var txRows, txFailed := ResolveCandidate(s, index, lib, txhash);
      CandidateAppend(s, index, lib, order, txhash, rows, Emission(txRows, txFailed));
      assert txhash !in order;
      order := order + [txhash];
      rows := rows + txRows;
      if txFailed {
        return rows, true, order;
      }
    }
  }
}
