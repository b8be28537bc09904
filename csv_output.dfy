/** CSVOutputProvider.cs: rows appended as `;`-terminated lines to a file. */
module CsvOutput {
  import opened Text

  /** The line for a row: every field followed by `;`. */
  function CsvLine(message: seq<string>): (line: string)
  {
    Terminated(message, ';')
  }

  /** The array overload's loop, building the line field by field. */
  method FormatRow(message: seq<string>) returns (line: string)
    ensures line == CsvLine(message)
  {
    line := "";
    for i := 0 to |message|
      invariant line == CsvLine(message[..i])
    {
      TerminatedAppend(message[..i], [message[i]], ';');
      assert message[..i + 1] == message[..i] + [message[i]];
      line := line + message[i] + ";";
    }
    assert message[..|message|] == message;
  }

  /** An empty row gives an empty line. */
  lemma EmptyRowEmptyLine()
    ensures CsvLine([]) == ""
  {
  }

  function TotalCount(fields: seq<string>, c: char): nat
  {
    if fields == [] then 0 else Count(fields[0], c) + TotalCount(fields[1..], c)
  }

  /** A row of n fields adds exactly n separators, the last one trailing. */
  lemma {:induction false} SeparatorCount(message: seq<string>)
    ensures Count(CsvLine(message), ';') == |message| + TotalCount(message, ';')
    ensures message != [] ==> CsvLine(message)[|CsvLine(message)| - 1] == ';'
  {
    if message != [] {
      var rest := CsvLine(message[1..]);
      assert CsvLine(message) == message[0] + (";" + rest);
      SeparatorCount(message[1..]);
      CountAppend(message[0], ";" + rest, ';');
      CountAppend(";", rest, ';');
      assert Count(";", ';') == 1 by { assert ";"[1..] == ""; }
    }
  }

  /** With no `;` inside a field, splitting the line on `;` gives the fields
      back, followed by one empty piece. */
  lemma {:induction false} SplitCsvLine(message: seq<string>)
    requires forall i, j :: 0 <= i < |message| && 0 <= j < |message[i]| ==> message[i][j] != ';'
    ensures Split(CsvLine(message), ';') == message + [""]
  {
    if message != [] {
      SplitPiece(message[0], ';', CsvLine(message[1..]));
      SplitCsvLine(message[1..]);
      assert message == [message[0]] + message[1..];
    }
  }

  /** The provider: the path it was made for and the lines of that file. */
  class CsvOutputProvider {
    const filepath: string
    var lines: seq<string>

    /** The file may already hold lines; every write appends. */
    constructor (filepath: string, existing: seq<string>)
      ensures this.filepath == filepath && lines == existing
    {
      this.filepath := filepath;
      lines := existing;
    }

    /** WriteLine(string[]): one more line, the row's. */
    method WriteFields(message: seq<string>)
      modifies this`lines
      ensures lines == old(lines) + [CsvLine(message)]
    {
      var line := FormatRow(message);
      lines := lines + [line];
    }

    /** WriteLine(string): one more line, the message and `;`. */
    method WriteMessage(message: string)
      modifies this`lines
      ensures lines == old(lines) + [message + ";"]
    {
      lines := lines + [message + ";"];
    }
  }
}
