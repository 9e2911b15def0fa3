/** A SOFiSTiK program block of a `.dat` input deck: a list of rows that
    starts with `+PROG <TYPE>` or `-PROG <TYPE>`, where the first character
    says whether the program runs.  Rows are upper-cased text. */
module Program {
  import opened Failures
  import opened Builtins

  /** The program types accepted by `set_type` and by detection. */
  const Types: seq<string> := ["AQB", "AQUA", "ASE", "MAXIMA", "RESULTS", "SOFILOAD",
                               "SOFIMSHA", "SOFIMSHB", "SOFIMSHC", "TEMPLATE", "WING"]

  /** A row argument whose Python type the source checks at run time. */
  datatype Text = Str(s: string) | Mutable(s: string) | Other

  /** The first character of the PROG row: '+' runs the program. */
  function Flag(active: bool): char
  {
    if active then '+' else '-'
  }

  /** The PROG row `set_type` writes. */
  function ProgRow(active: bool, progType: string): string
  {
    [Flag(active)] + "PROG " + progType
  }

  /** The active flag and the first character of row 0 agree. */
  predicate FlagAgrees(rows: seq<string>, active: bool)
  {
    rows != [] && rows[0] != [] ==> rows[0][0] == Flag(active)
  }

  /** Row 0 with its first character replaced, as `turn_on`/`turn_off` do;
      missing rows or characters raise `IndexError`. */
  function WithFlag(rows: seq<string>, c: char): (r: Result<seq<string>>)
    ensures r.Ok? <==> rows != [] && rows[0] != []
    ensures r.Ok? ==> |r.value| == |rows| && r.value[0] == rows[0][0 := c] &&
                      r.value[1..] == rows[1..]
    ensures r.Err? ==> r.failure == IndexError
  {
    match At(rows, 0)
    case Err(e) => Err(e)
    case Ok(row) =>
      match SetAt(row, 0, c)
      case Err(e) => Err(e)
      case Ok(flagged) => Ok(rows[0 := flagged])
  }

  /** What detection makes of the constructor's arguments: the activity
      flag from row 0's first character and the type from row 0's second
      word.  Empty content keeps the arguments. */
  function Detected(rows: seq<string>, active: bool, progType: string): (r: Result<(bool, string)>)
    ensures rows == [] ==> r == Ok((active, progType))
    ensures r.Ok? && rows != [] ==>
      rows[0] != [] && rows[0][0] == Flag(r.value.0) &&
      |Words(rows[0])| >= 2 && Words(rows[0])[1] == r.value.1 && r.value.1 in Types
    ensures r.Err? <==> (rows != [] &&
      (rows[0] == [] || (rows[0][0] != '+' && rows[0][0] != '-') ||
       |Words(rows[0])| < 2 || Words(rows[0])[1] !in Types))
    ensures r.Err? ==> r.failure == IndexError || r.failure == RuntimeError
  {
    if rows == [] then Ok((active, progType))
    else match At(rows[0], 0)
      case Err(e) => Err(e)
      case Ok(c) =>
        if c != '+' && c != '-' then Err(RuntimeError)
        else match At(Words(rows[0]), 1)
          case Err(e) => Err(e)
          case Ok(word) =>
            if word !in Types then Err(RuntimeError) else Ok((c == '+', word))
  }

  /** `"".join(row + "\n" for row in rows)`. */
  function Lines(rows: seq<string>): (r: string)
    ensures |r| >= |rows|
  {
    if rows == [] then [] else rows[0] + "\n" + Lines(rows[1..])
  }

  /** `rows.insert(index, row)` followed by `del rows[index + 1]`, the way
      `replace_by_index` overwrites a row.  The inserted rows are returned
      even when the deletion raises. */
  function InsertThenDelete(rows: seq<string>, index: int, row: string): (seq<string>, Result<seq<string>>)
  {
    var inserted := Insert(rows, index, row);
    (inserted, Delete(inserted, index + 1))
  }

  /** `count_row`: occurrences of the upper-cased string; anything but a
      `str` raises `TypeError`. */
  function CountRow(search: Text, rows: seq<string>): (r: Result<nat>)
    ensures r.Ok? <==> search.Str?
    ensures r.Ok? ==> r.value <= |rows| && (r.value == 0 <==> Upper(search.s) !in rows)
    ensures r.Ok? ==> r.value == multiset(rows)[Upper(search.s)]
    ensures r.Err? ==> r.failure == TypeError
  {
    if search.Str? then Ok(Count(rows, Upper(search.s))) else Err(TypeError)
  }

  class SofistikProgram {
    var content: seq<string>
    var isActive: bool
    var name: string
    var progType: string

    constructor Init(content: seq<string>, name: string, isActive: bool, progType: string)
      ensures this.content == content && this.name == Upper(name)
      ensures this.isActive == isActive && this.progType == progType
    {
      this.content := content;
      this.name := Upper(name);
      this.isActive := isActive;
      this.progType := progType;
    }

    /** `SOFiSTiKProgram(content, name, is_active, prg_type)`: non-empty
        content decides the activity flag and the type. */
    static method Create(content: seq<string>, name: string, isActive: bool, progType: string)
      returns (r: Result<SofistikProgram>)
      ensures r.Ok? <==> Detected(content, isActive, progType).Ok?
      ensures r.Err? ==> r.failure == Detected(content, isActive, progType).failure
      ensures r.Ok? ==> fresh(r.value) && r.value.content == content && r.value.name == Upper(name)
      ensures r.Ok? ==> r.value.isActive == Detected(content, isActive, progType).value.0
      ensures r.Ok? ==> r.value.progType == Detected(content, isActive, progType).value.1
      ensures r.Ok? ==> FlagAgrees(r.value.content, r.value.isActive)
    {
      var p := new SofistikProgram.Init(content, name, isActive, progType);
      if content != [] {
        var outcome: Outcome;
        if content[0] != [] && content[0][0] == '+' {
          outcome := p.TurnOn();
          assert content[0][0 := '+'] == content[0];
        } else if content[0] != [] && content[0][0] == '-' {
          outcome := p.TurnOff();
          assert content[0][0 := '-'] == content[0];
        } else if content[0] == [] {
          return Err(IndexError);
        } else {
          return Err(RuntimeError);
        }
        assert outcome == Done;
        var words := Words(content[0]);
        if |words| < 2 {
          return Err(IndexError);
        }
        if words[1] !in Types {
          return Err(RuntimeError);
        }
        p.progType := words[1];
      }
      r := Ok(p);
    }

    /** `add_row`: the row is appended upper-cased. */
    method AddRow(row: Text) returns (r: Outcome)
      modifies this
      ensures r == Done <==> !row.Other?
      ensures r == Done ==> content == old(content) + [Upper(row.s)]
      ensures r.Raised? ==> r.failure == TypeError && content == old(content)
      ensures isActive == old(isActive) && name == old(name) && progType == old(progType)
    {
      if row.Other? {
        return Raised(TypeError);
      }
      content := content + [Upper(row.s)];
      r := Done;
    }

    /** `get_row_index`: the first row equal to the right-stripped,
        upper-cased text. */
    function GetRowIndex(row: string): (r: Result<nat>)
      reads this
      ensures r.Ok? <==> Upper(RStrip(row)) in content
      ensures r.Ok? ==> r.value < |content| && content[r.value] == Upper(RStrip(row)) &&
                        Upper(RStrip(row)) !in content[..r.value]
      ensures r.Err? ==> r.failure == ValueError
    {
      IndexOf(content, Upper(RStrip(row)))
    }

    /** `add_row_after`: the new row goes right after the first matching row. */
    method AddRowAfter(newRow: string, target: string) returns (r: Outcome)
      modifies this
      ensures r == Done <==> old(GetRowIndex(target)).Ok?
      ensures r.Raised? ==> r.failure == ValueError && content == old(content)
      ensures r == Done ==> var i := old(GetRowIndex(target)).value;
        content == old(content)[..i + 1] + [RStrip(Upper(newRow))] + old(content)[i + 1..]
      ensures isActive == old(isActive) && name == old(name) && progType == old(progType)
    {
      match GetRowIndex(target)
      case Err(e) =>
        r := Raised(e);
      case Ok(i) =>
        content := Insert(content, i + 1, RStrip(Upper(newRow)));
        r := Done;
    }

    /** `add_row_before`: the new row takes the place of the first matching
        row, which moves down by one. */
    method AddRowBefore(newRow: string, target: string) returns (r: Outcome)
      modifies this
      ensures r == Done <==> old(GetRowIndex(target)).Ok?
      ensures r.Raised? ==> r.failure == ValueError && content == old(content)
      ensures r == Done ==> var i := old(GetRowIndex(target)).value;
        content == old(content)[..i] + [RStrip(Upper(newRow))] + old(content)[i..]
      ensures isActive == old(isActive) && name == old(name) && progType == old(progType)
    {
      match GetRowIndex(target)
      case Err(e) =>
        r := Raised(e);
      case Ok(i) =>
        content := Insert(content, i, RStrip(Upper(newRow)));
        r := Done;
    }

    /** `clear`: no rows, and empty name and type; the activity flag stays. */
    method Clear()
      modifies this
      ensures content == [] && name == [] && progType == [] && isActive == old(isActive)
    {
      content := [];
      name := [];
      progType := [];
    }

    /** `get_row_by_index`, with Python's negative positions. */
    function GetRowByIndex(index: int): (r: Result<string>)
      reads this
      ensures r.Ok? <==> -|content| <= index < |content|
      ensures 0 <= index < |content| ==> r == Ok(content[index])
      ensures -|content| <= index < 0 ==> r == Ok(content[|content| + index])
      ensures r.Err? ==> r.failure == IndexError
    {
      At(content, index)
    }

    /** `modify_row`: `content[index] = new_row`, right-stripped and upper-cased. */
    method ModifyRow(index: int, newRow: string) returns (r: Outcome)
      modifies this
      ensures r == Done <==> -|old(content)| <= index < |old(content)|
      ensures 0 <= index < |old(content)| ==> content == old(content)[index := Upper(RStrip(newRow))]
      ensures -|old(content)| <= index < 0 ==>
        content == old(content)[|old(content)| + index := Upper(RStrip(newRow))]
      ensures r.Raised? ==> r.failure == IndexError && content == old(content)
      ensures |content| == |old(content)|
      ensures isActive == old(isActive) && name == old(name) && progType == old(progType)
    {
      match SetAt(content, index, Upper(RStrip(newRow)))
      case Err(e) =>
        r := Raised(e);
      case Ok(rows) =>
        content := rows;
        r := Done;
    }

    /** `remove_row_by_index`: `del content[index]`. */
    method RemoveRowByIndex(index: int) returns (r: Outcome)
      modifies this
      ensures r == Done <==> -|old(content)| <= index < |old(content)|
      ensures 0 <= index < |old(content)| ==> content == old(content)[..index] + old(content)[index + 1..]
      ensures -|old(content)| <= index < 0 ==> var i := |old(content)| + index;
        content == old(content)[..i] + old(content)[i + 1..]
      ensures r.Raised? ==> r.failure == IndexError && content == old(content)
      ensures isActive == old(isActive) && name == old(name) && progType == old(progType)
    {
      match Delete(content, index)
      case Err(e) =>
        r := Raised(e);
      case Ok(rows) =>
        content := rows;
        r := Done;
    }

    /** `remove_row_by_text`: removes the first row equal to the upper-cased
        text (not right-stripped, unlike `get_row_index`). */
    method RemoveRowByText(row: string) returns (r: Outcome)
      modifies this
      ensures r == Done <==> Upper(row) in old(content)
      ensures r.Raised? ==> r.failure == ValueError && content == old(content)
      ensures r == Done ==> var i := IndexOf(old(content), Upper(row)).value;
        Upper(row) !in old(content)[..i] && old(content)[i] == Upper(row) &&
        content == old(content)[..i] + old(content)[i + 1..]
      ensures isActive == old(isActive) && name == old(name) && progType == old(progType)
    {
      match IndexOf(content, Upper(row))
      case Err(e) =>
        r := Raised(e);
      case Ok(i) =>
        content := content[..i] + content[i + 1..];
        r := Done;
    }

    /** `replace`: the first row matching `oldRow` is overwritten; the
        length and every other row stay. */
    method Replace(oldRow: string, newRow: string) returns (r: Outcome)
      modifies this
      ensures r == Done <==> old(GetRowIndex(oldRow)).Ok?
      ensures r.Raised? ==> r.failure == ValueError && content == old(content)
      ensures r == Done ==> content == old(content)[old(GetRowIndex(oldRow)).value := Upper(newRow)]
      ensures isActive == old(isActive) && name == old(name) && progType == old(progType)
    {
      match GetRowIndex(oldRow)
      case Err(e) =>
        r := Raised(e);
      case Ok(i) =>
        var (inserted, deleted) := InsertThenDelete(content, i, Upper(newRow));
        InsertThenDeleteInRange(content, i, Upper(newRow));
        content := deleted.value;
        r := Done;
    }

    /** `replace_by_index`: insert the new row at `index`, then delete the
        row at `index + 1`.  In range this overwrites one row; past the end
        the new row is appended before `IndexError` is raised. */
    method ReplaceByIndex(index: int, newRow: string) returns (r: Outcome)
      modifies this
      ensures var (inserted, deleted) := InsertThenDelete(old(content), index, RStrip(Upper(newRow)));
        (r == Done <==> deleted.Ok?) &&
        (r == Done ==> content == deleted.value) &&
        (r.Raised? ==> r.failure == IndexError && content == inserted)
      ensures 0 <= index < |old(content)| ==>
        r == Done && content == old(content)[index := RStrip(Upper(newRow))]
      ensures |old(content)| <= index ==>
        r == Raised(IndexError) && content == old(content) + [RStrip(Upper(newRow))]
      ensures isActive == old(isActive) && name == old(name) && progType == old(progType)
    {
      var row := RStrip(Upper(newRow));
      InsertThenDeleteInRange(content, index, row);
      InsertThenDeletePastEnd(content, index, row);
      content := Insert(content, index, row);
      match Delete(content, index + 1)
      case Err(e) =>
        r := Raised(e);
      case Ok(rows) =>
        content := rows;
        r := Done;
    }

    /** `serialize`: the rows, one per line, without trailing blanks. */
    function Serialize(): (r: string)
      reads this
      ensures |r| <= |Lines(content)| && r == Lines(content)[..|r|]
      ensures forall i :: |r| <= i < |Lines(content)| ==> IsSpace(Lines(content)[i])
      ensures r != [] ==> !IsSpace(r[|r| - 1])
    {
      RStrip(Lines(content))
    }

    /** `set_name`: row 1 becomes `HEAD <NAME>`. */
    method SetName(newName: string) returns (r: Outcome)
      modifies this
      ensures |old(content)| >= 2 ==>
        (r == Done && content == old(content)[1 := RStrip(Upper("HEAD " + Upper(newName)))])
      ensures |old(content)| < 2 ==>
        (r == Raised(IndexError) && content == old(content) + [RStrip(Upper("HEAD " + Upper(newName)))])
      ensures r == Done ==> name == Upper(newName)
      ensures r.Raised? ==> name == old(name)
      ensures old(content) != [] && FlagAgrees(old(content), isActive) ==> FlagAgrees(content, isActive)
      ensures isActive == old(isActive) && progType == old(progType)
    {
      r := ReplaceByIndex(1, "HEAD " + Upper(newName));
      if r.Raised? {
        return;
      }
      name := Upper(newName);
    }

    /** `set_type`: only the listed types, in any case, are accepted; row 0
        becomes the PROG row with the current activity flag. */
    method SetType(newType: string) returns (r: Outcome)
      modifies this
      ensures Upper(newType) !in Types ==> r == Raised(RuntimeError) && content == old(content)
      ensures Upper(newType) in Types && old(content) != [] ==>
        r == Done && content == old(content)[0 := ProgRow(isActive, Upper(newType))] &&
        progType == Upper(newType) && FlagAgrees(content, isActive)
      ensures Upper(newType) in Types && old(content) == [] ==>
        r == Raised(IndexError) && content == [ProgRow(isActive, Upper(newType))]
      ensures r.Raised? ==> progType == old(progType)
      ensures isActive == old(isActive) && name == old(name)
    {
      var upper := Upper(newType);
      if upper !in Types {
        return Raised(RuntimeError);
      }
      var flag := Flag(isActive);
      UpperIdempotent(newType);
      ProgRowStored(isActive, upper);
      r := ReplaceByIndex(0, [flag] + "PROG " + upper);
      if r.Raised? {
        return;
      }
      progType := upper;
    }

    /** `turn_off`: row 0's first character becomes '-'. */
    method TurnOff() returns (r: Outcome)
      modifies this
      ensures r == Done <==> WithFlag(old(content), '-').Ok?
      ensures r == Done ==> content == WithFlag(old(content), '-').value && !isActive
      ensures r.Raised? ==> r.failure == IndexError && content == old(content) && isActive == old(isActive)
      ensures r == Done ==> FlagAgrees(content, isActive)
      ensures name == old(name) && progType == old(progType)
    {
      match WithFlag(content, '-')
      case Err(e) =>
        r := Raised(e);
      case Ok(rows) =>
        content := rows;
        isActive := false;
        r := Done;
    }

    /** `turn_on`: row 0's first character becomes '+'. */
    method TurnOn() returns (r: Outcome)
      modifies this
      ensures r == Done <==> WithFlag(old(content), '+').Ok?
      ensures r == Done ==> content == WithFlag(old(content), '+').value && isActive
      ensures r.Raised? ==> r.failure == IndexError && content == old(content) && isActive == old(isActive)
      ensures r == Done ==> FlagAgrees(content, isActive)
      ensures name == old(name) && progType == old(progType)
    {
      match WithFlag(content, '+')
      case Err(e) =>
        r := Raised(e);
      case Ok(rows) =>
        content := rows;
        isActive := true;
        r := Done;
    }

    /** `create_empty`: three rows, PROG, HEAD and END, with the requested
        type and activity. */
    static method CreateEmpty(name: string, progType: string, isActive: bool)
      returns (r: Result<SofistikProgram>)
      ensures r.Ok? <==> Upper(progType) in Types
      ensures r.Err? ==> r.failure == RuntimeError
      ensures r.Ok? ==> fresh(r.value)
      ensures r.Ok? ==> r.value.content == [ProgRow(isActive, Upper(progType)), "\tHEAD " + Upper(name), "END"]
      ensures r.Ok? ==> r.value.name == Upper(name) && r.value.progType == Upper(progType)
      ensures r.Ok? ==> r.value.isActive == isActive && FlagAgrees(r.value.content, r.value.isActive)
    {
      var p := new SofistikProgram.Init([], name, false, "ASE");
      p.content := p.content + ["-PROG ASE"];
      p.content := p.content + ["\tHEAD " + Upper(name)];
      p.content := p.content + ["END"];
      var typed := p.SetType(progType);
      if typed.Raised? {
        return Err(typed.failure);
      }
      if isActive {
        var on := p.TurnOn();
        assert ProgRow(false, Upper(progType))[0 := '+'] == ProgRow(true, Upper(progType));
      }
      r := Ok(p);
    }
  }

  // ------------------------------------------------------------ laws

  /** In range, inserting and then deleting the next row overwrites exactly
      one row. */
  lemma InsertThenDeleteInRange(rows: seq<string>, index: int, row: string)
    ensures 0 <= index < |rows| ==>
      InsertThenDelete(rows, index, row).1 == Ok(rows[index := row])
  {
    if 0 <= index < |rows| {
      var inserted := Insert(rows, index, row);
      assert inserted == rows[..index] + [row] + rows[index..];
      assert inserted[..index + 1] + inserted[index + 2..] == rows[index := row];
    }
  }

  /** Past the end, the row is appended and the deletion raises. */
  lemma InsertThenDeletePastEnd(rows: seq<string>, index: int, row: string)
    ensures |rows| <= index ==>
      InsertThenDelete(rows, index, row) == (rows + [row], Err(IndexError))
  {
    if |rows| <= index {
      assert Insert(rows, index, row) == rows + [row];
    }
  }

  /** Position -1, which Python reads as the last row, does not replace the
      last row: the new row goes in before it and the first row is dropped. */
  lemma ReplaceLastDropsFirst(rows: seq<string>, row: string)
    requires |rows| >= 2
    ensures InsertThenDelete(rows, -1, row).1 ==
      Ok(rows[1..|rows| - 1] + [row] + [rows[|rows| - 1]])
  {
    var n := |rows|;
    var inserted := Insert(rows, -1, row);
    assert InsertPosition(n, -1) == n - 1;
    assert inserted == rows[..n - 1] + [row] + rows[n - 1..];
    assert inserted[1..] == rows[1..n - 1] + [row] + [rows[n - 1]];
    assert Delete(inserted, 0) == Ok(inserted[..0] + inserted[1..]);
    assert inserted[..0] + inserted[1..] == inserted[1..];
    assert InsertThenDelete(rows, -1, row) == (inserted, Delete(inserted, 0));
  }

  /** The PROG row `set_type` writes is stored unchanged by
      `replace_by_index`, which right-strips and upper-cases it. */
  lemma ProgRowStored(active: bool, progType: string)
    requires progType in Types && Upper(progType) == progType
    ensures RStrip(Upper(ProgRow(active, progType))) == ProgRow(active, progType)
  {
    var row := ProgRow(active, progType);
    forall i | 0 <= i < |row|
      ensures UpperChar(row[i]) == row[i]
    {
      if i >= 6 {
        assert row[i] == progType[i - 6];
        assert UpperChar(progType[i - 6]) == progType[i - 6];
      }
    }
    assert Upper(row) == row;
    TypesEndInLetters();
    assert row[|row| - 1] == progType[|progType| - 1];
  }

  lemma TypesEndInLetters()
    ensures forall t :: t in Types ==> t != [] && !IsSpace(t[|t| - 1])
  {
    forall t | t in Types
      ensures t != [] && !IsSpace(t[|t| - 1])
    {
      var k :| 0 <= k < |Types| && Types[k] == t;
      if k < 4 {
        assert k == 0 || k == 1 || k == 2 || k == 3;
      } else if k < 8 {
        assert k == 4 || k == 5 || k == 6 || k == 7;
      } else {
        assert k == 8 || k == 9 || k == 10;
      }
    }
  }

  /** Turning a program on or off twice is the same as doing it once. */
  lemma WithFlagIdempotent(rows: seq<string>, c: char)
    requires WithFlag(rows, c).Ok?
    ensures WithFlag(WithFlag(rows, c).value, c) == WithFlag(rows, c)
  {
    var once := rows[0 := rows[0][0 := c]];
    assert WithFlag(rows, c) == Ok(once);
    assert once[0][0 := c] == once[0];
    assert once[0 := once[0][0 := c]] == once;
  }

  /** A row added with `add_row` is counted once more by `count_row`. */
  lemma {:induction false} AddRowCounted(rows: seq<string>, s: string)
    ensures CountRow(Str(s), rows + [Upper(s)]) == Ok(CountRow(Str(s), rows).value + 1)
  {
    CountAppend(rows, Upper(s));
  }

  lemma {:induction false} CountAppend(rows: seq<string>, x: string)
    ensures Count(rows + [x], x) == Count(rows, x) + 1
  {
    if rows == [] {
      assert Count([x], x) == 1 + Count([x][1..], x);
    } else {
      assert (rows + [x])[1..] == rows[1..] + [x];
      CountAppend(rows[1..], x);
    }
  }
}
