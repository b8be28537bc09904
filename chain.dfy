/** The ledger values the block-parsing library hands to the tool, and the
    library and runtime behaviour the tool uses but does not define. */
module Chain {
  import opened Wrappers
  import opened Encoding

  /** A reference to output `prevIndex` of the transaction `prevHash`
      (TxIn.PrevOut), with the address decoded, best effort, from the
      unlocking script (ScriptSig.GetDestinationAddress). */
  datatype Input = Input(prevHash: Hash, prevIndex: nat, sigAddress: Option<string>)

  /** An amount in the smallest unit and the address decoded, best effort,
      from the locking script (ScriptPubKey.GetDestinationAddress). */
  datatype Output = Output(value: int, address: Option<string>)

  datatype Transaction = Transaction(hash: Hash, inputs: seq<Input>, outputs: seq<Output>)

  /** A block with its hash, its creation time in seconds since
      0001-01-01 and its transactions in on-disk order. */
  datatype Block = Block(hash: Hash, time: nat, transactions: seq<Transaction>)

  /** A container file of a data directory: its name (FileInfo.Name), its
      full path (FileInfo.FullName) and the blocks BlockStore.EnumerateFile
      reads from it, in on-disk order. */
  datatype ContainerFile = ContainerFile(name: string, fullName: string, blocks: seq<Block>)

  /** One row handed to an output provider (a string[]). */
  type Row = seq<string>

  /** Library behaviour taken as given: DateTime.TryParse, the culture's
      ToShortDateString/ToShortTimeString, Money.ToString and the data
      directory's file-name pattern (BlockStore.FileRegex), which yields its
      first capture group, a run of digits, when a name matches. */
  datatype Library = Library(
    parseDate: string -> Option<nat>,
    shortDate: nat -> string,
    shortTime: nat -> string,
    money: int -> string,
    fileRegex: string -> Option<Digits>)

  /** An input with the zero previous hash is a generation (coinbase) input. */
  predicate IsGeneration(i: Input)
  {
    i.prevHash == ZeroHash
  }

  const SecondsPerDay: nat := 86400

  /** DateTime.Date: the calendar day a time falls on. */
  function Day(time: nat): nat
  {
    time / SecondsPerDay
  }

  /** String.Format("{0}", address): the address, or "" for null. */
  function AddressText(a: Option<string>): string
  {
    match a
    case Some(s) => s
    case None => ""
  }
}
