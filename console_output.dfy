/** ConsoleOutputProvider.cs: rows printed as space-separated, trimmed lines. */
module ConsoleOutput {
  import opened Text

  /** The line for a row: every field followed by a space, then trimmed. */
  function ConsoleLine(message: seq<string>): (line: string)
    ensures line != [] ==> !IsWhiteSpace(line[0]) && !IsWhiteSpace(line[|line| - 1])
  {
    Trim(Terminated(message, ' '))
  }

  /** The array overload's loop and the final Trim. */
  method FormatRow(message: seq<string>) returns (line: string)
    ensures line == ConsoleLine(message)
  {
    var messageTmp := "";
    for i := 0 to |message|
      invariant messageTmp == Terminated(message[..i], ' ')
    {
      TerminatedAppend(message[..i], [message[i]], ' ');
      assert message[..i + 1] == message[..i] + [message[i]];
      messageTmp := messageTmp + message[i] + " ";
    }
    assert message[..|message|] == message;
    line := Trim(messageTmp);
  }

  /** An empty first field leaves no trace, not even a space. */
  lemma LeadingEmptyFieldVanishes(message: seq<string>)
    ensures ConsoleLine([""] + message) == ConsoleLine(message)
  {
    assert ([""] + message)[1..] == message;
    assert Terminated([""] + message, ' ') == " " + Terminated(message, ' ');
    TrimLeadingSpace(" ", Terminated(message, ' '));
  }

  /** When the first field does not start and the last does not end with
      white space, the line is the fields joined by single spaces; an empty
      field inside the row thus shows as two consecutive spaces. */
  lemma TidyRowIsJoin(message: seq<string>)
    requires message != [] && message[0] != [] && message[|message| - 1] != []
    requires !IsWhiteSpace(message[0][0])
    requires !IsWhiteSpace(message[|message| - 1][|message[|message| - 1]| - 1])
    ensures ConsoleLine(message) == Join(message, ' ')
  {
    TerminatedIsJoin(message, ' ');
    var j := Join(message, ' ');
    JoinEnds(message, ' ');
    TrimEndTrailingSpace(j, " ");
    TrimTidy(j);
  }

  lemma {:induction false} JoinEnds(fields: seq<string>, sep: char)
    requires fields != [] && fields[0] != [] && fields[|fields| - 1] != []
    ensures Join(fields, sep) != []
    ensures Join(fields, sep)[0] == fields[0][0]
    ensures Join(fields, sep)[|Join(fields, sep)| - 1] == fields[|fields| - 1][|fields[|fields| - 1]| - 1]
  {
    JoinLast(fields, sep);
  }

  lemma {:induction false} JoinLast(fields: seq<string>, sep: char)
    requires fields != [] && fields[|fields| - 1] != []
    ensures Join(fields, sep) != []
    ensures Join(fields, sep)[|Join(fields, sep)| - 1] == fields[|fields| - 1][|fields[|fields| - 1]| - 1]
  {
    if |fields| > 1 {
      JoinLast(fields[1..], sep);
    }
  }

  /** Two fields around an empty one are printed two spaces apart. */
  lemma InteriorEmptyField(a: string, b: string)
    requires a != [] && b != [] && !IsWhiteSpace(a[0]) && !IsWhiteSpace(b[|b| - 1])
    ensures ConsoleLine([a, "", b]) == a + "  " + b
  {
    var row := [a, "", b];
    assert row[0] == a && row[|row| - 1] == b;
    TidyRowIsJoin(row);
    assert row[1..] == ["", b] && row[1..][1..] == [b];
    assert Join([b], ' ') == b;
    assert Join(["", b], ' ') == "" + [' '] + b;
    assert Join(row, ' ') == a + [' '] + ("" + [' '] + b);
  }

  /** Standard output as the lines printed so far. */
  class ConsoleOutputProvider {
    var printed: seq<string>

    constructor (existing: seq<string>)
      ensures printed == existing
    {
      printed := existing;
    }

    /** WriteLine(string[]): one more line, the row's. */
    method WriteFields(message: seq<string>)
      modifies this
      ensures printed == old(printed) + [ConsoleLine(message)]
    {
      var line := FormatRow(message);
      printed := printed + [line];
    }

    /** WriteLine(string): the message, unchanged. */
    method WriteMessage(message: string)
      modifies this
      ensures printed == old(printed) + [message]
    {
      printed := printed + [message];
    }
  }
}
