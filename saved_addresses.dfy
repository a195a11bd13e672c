/**
  The debugger's saved-address table (`SavedAddressesModel`), without its Qt
  view machinery: a list of rows (expression, address, size, label,
  description) with append, range removal, clearing, cell edits and import
  from a list of text fields.

  The debugger's expression evaluator reads live CPU state; it is passed to
  each operation as a function `eval` from text to an optional 64-bit result.
  Qt's text-to-number conversions are modelled by the functions under
  "Text", in the "C" locale and without a sign.
*/
module SavedAddresses {
  import opened Wrappers

  type u32 = x: int | 0 <= x < 0x1_0000_0000

  /** The expression evaluator of the debugged CPU. */
  type Evaluator = string -> Option<nat>

  // ---------------------------------------------------------------------
  // Text.

  predicate IsSpace(c: char) {
    c == ' ' || 9 <= c as int <= 13
  }

  function TrimStart(s: string): (t: string)
    ensures |t| <= |s|
    ensures t == [] || !IsSpace(t[0])
  {
    if s != [] && IsSpace(s[0]) then TrimStart(s[1..]) else s
  }

  function TrimEnd(s: string): (t: string)
    ensures |t| <= |s|
    ensures t == [] || !IsSpace(t[|t| - 1])
  {
    if s != [] && IsSpace(s[|s| - 1]) then TrimEnd(s[..|s| - 1]) else s
  }

  /** `QString::trimmed`: whitespace removed from both ends. */
  function Trim(s: string): string {
    TrimEnd(TrimStart(s))
  }

  /** Trimming an untrimmed-free string changes nothing. */
  lemma TrimNoSpaceEnds(s: string)
    requires s != [] ==> !IsSpace(s[0]) && !IsSpace(s[|s| - 1])
    ensures Trim(s) == s
  {
  }

  /** `TrimEnd` keeps a non-space first character in place. */
  lemma {:induction false} TrimEndFirst(s: string)
    requires s != [] && !IsSpace(s[0])
    ensures TrimEnd(s) != [] && TrimEnd(s)[0] == s[0]
    decreases |s|
  {
    if IsSpace(s[|s| - 1]) {
      TrimEndFirst(s[..|s| - 1]);
    }
  }

  /** Trimming twice is trimming once. */
  lemma TrimTwice(s: string)
    ensures Trim(Trim(s)) == Trim(s)
  {
    var t := Trim(s);
    if t != [] {
      TrimEndFirst(TrimStart(s));
    }
    TrimNoSpaceEnds(t);
  }

  predicate IsDecimalDigit(c: char) {
    '0' <= c <= '9'
  }

  predicate IsHexDigit(c: char) {
    IsDecimalDigit(c) || 'a' <= c <= 'f' || 'A' <= c <= 'F'
  }

  function DigitValue(c: char): (v: nat)
    requires IsHexDigit(c)
    ensures v < 16
    ensures IsDecimalDigit(c) ==> v < 10
  {
    if IsDecimalDigit(c) then c as int - '0' as int
    else if 'a' <= c <= 'f' then c as int - 'a' as int + 10
    else c as int - 'A' as int + 10
  }

  /** The number a run of digits spells in base `base`, most significant first. */
  function DigitsValue(d: string, base: nat): nat
    requires forall i :: 0 <= i < |d| ==> IsHexDigit(d[i])
    decreases |d|
  {
    if d == [] then 0 else DigitsValue(d[..|d| - 1], base) * base + DigitValue(d[|d| - 1])
  }

  /** `QString::toUInt(&ok, 16)`: optional surrounding whitespace, an
      optional `0x` prefix, at least one hex digit, and a value that fits
      32 bits. */
  function ParseHex(s: string): Option<u32> {
    ParseHexDigits(Trim(s))
  }

  /** The hex number `t` spells once trimmed. */
  function ParseHexDigits(t: string): Option<u32> {
    var d := if |t| >= 2 && t[0] == '0' && (t[1] == 'x' || t[1] == 'X') then t[2..] else t;
    if d == [] || exists i :: 0 <= i < |d| && !IsHexDigit(d[i]) then None
    else
      var v := DigitsValue(d, 16);
      if v < 0x1_0000_0000 then Some(v) else None
  }

  /** `QString::toInt(&ok)`: optional surrounding whitespace, at least one
      decimal digit, and a value that fits a 32-bit `int`. */
  function ParseDecimal(s: string): Option<int> {
    var t := Trim(s);
    if t == [] || exists i :: 0 <= i < |t| && !IsDecimalDigit(t[i]) then None
    else
      var v := DigitsValue(t, 10);
      if v < 0x8000_0000 then Some(v) else None
  }

  function HexChar(n: nat): (c: char)
    requires n < 16
    ensures IsHexDigit(c) && DigitValue(c) == n
  {
    if n < 10 then ('0' as int + n) as char else ('A' as int + n - 10) as char
  }

  /** `QString::number(n, 16).toUpper()`: upper-case hex digits without
      leading zeros, "0" for zero. */
  function HexDigits(n: nat): (s: string)
    ensures s != [] && forall i :: 0 <= i < |s| ==> IsHexDigit(s[i])
    decreases n
  {
    if n < 16 then [HexChar(n)] else HexDigits(n / 16) + [HexChar(n % 16)]
  }

  lemma {:induction false} HexDigitsValue(n: nat)
    ensures DigitsValue(HexDigits(n), 16) == n
    decreases n
  {
    if n >= 16 {
      var s := HexDigits(n);
      assert s[..|s| - 1] == HexDigits(n / 16);
      HexDigitsValue(n / 16);
    }
  }

  /** An address printed as the ADDRESS column prints it parses back. */
  lemma HexRoundTrip(a: u32)
    ensures ParseHex(HexDigits(a)) == Some(a)
  {
    var s := HexDigits(a);
    assert IsHexDigit(s[0]) && IsHexDigit(s[|s| - 1]);
    TrimNoSpaceEnds(s);
    HexDigitsValue(a);
  }

  // ---------------------------------------------------------------------
  // Sizes.

  /** `MemorySize`: an `int` enum, so a cast can hold any value. */
  type MemorySize = int

  const SIZE_1_BYTE: MemorySize := 0
  const SIZE_2_BYTES: MemorySize := 1
  const SIZE_4_BYTES: MemorySize := 2
  const SIZE_8_BYTES: MemorySize := 3

  /** `memorySizeToString`: the byte count; "4" for a value outside the enum. */
  function MemorySizeToString(size: MemorySize): string {
    if size == SIZE_1_BYTE then "1"
    else if size == SIZE_2_BYTES then "2"
    else if size == SIZE_8_BYTES then "8"
    else "4"
  }

  /** `stringToMemorySize`: the enum value for the byte counts 1, 2, 4 and
      8, and four bytes for any other text. */
  function StringToMemorySize(s: string): (size: MemorySize)
    ensures SIZE_1_BYTE <= size <= SIZE_8_BYTES
    ensures ParseDecimal(s).None? ==> size == SIZE_4_BYTES
    ensures ParseDecimal(s).Some? && ParseDecimal(s).value !in {1, 2, 4, 8} ==> size == SIZE_4_BYTES
  {
    match ParseDecimal(s)
    case None => SIZE_4_BYTES
    case Some(v) =>
      if v == 1 then SIZE_1_BYTE
      else if v == 2 then SIZE_2_BYTES
      else if v == 8 then SIZE_8_BYTES
      else SIZE_4_BYTES
  }

  lemma ParseDigit(c: char)
    requires IsDecimalDigit(c)
    ensures ParseDecimal([c]) == Some(DigitValue(c))
  {
    TrimNoSpaceEnds([c]);
    assert [c][..0] == [];
    assert DigitsValue([c], 10) == DigitValue(c);
    assert !exists i :: 0 <= i < |[c]| && !IsDecimalDigit([c][i]);
  }

  /** Each size survives printing and parsing; a value outside the enum
      comes back as four bytes. */
  lemma MemorySizeRoundTrip(size: MemorySize)
    ensures StringToMemorySize(MemorySizeToString(size))
         == if SIZE_1_BYTE <= size <= SIZE_8_BYTES then size else SIZE_4_BYTES
  {
    ParseDigit(MemorySizeToString(size)[0]);
  }

  // ---------------------------------------------------------------------
  // Addresses.

  /** `evaluateAddress`: 0 for blank text; a plain hex number if it is one;
      otherwise the evaluator's result truncated to 32 bits, or 0 when the
      evaluator fails. */
  function EvaluateAddress(expression: string, eval: Evaluator): u32 {
    var input := Trim(expression);
    if input == [] then 0
    else
      match ParseHex(input)
      case Some(a) => a
      case None =>
        match eval(input)
        case Some(r) => r % 0x1_0000_0000
        case None => 0
  }

  /** A hex address evaluates to itself whatever the evaluator does. */
  lemma HexEvaluates(a: u32, eval: Evaluator)
    ensures EvaluateAddress(HexDigits(a), eval) == a
  {
    HexRoundTrip(a);
    TrimNoSpaceEnds(HexDigits(a));
  }

  /** Blank text evaluates to 0; text that is not a hex number goes to the
      evaluator, and an evaluator failure gives 0. */
  lemma EvaluateAddressCases(expression: string, eval: Evaluator)
    ensures Trim(expression) == [] ==> EvaluateAddress(expression, eval) == 0
    ensures ParseHex(expression).Some? ==> EvaluateAddress(expression, eval) == ParseHex(expression).value
    ensures Trim(expression) != [] && ParseHex(expression).None? && eval(Trim(expression)).None?
            ==> EvaluateAddress(expression, eval) == 0
  {
    TrimTwice(expression);
    if Trim(expression) == [] {
      assert ParseHex(expression).None?;
    }
  }

  // ---------------------------------------------------------------------
  // Rows.

  datatype SavedAddress = SavedAddress(expression: string, address: u32, size: MemorySize,
                                       labelText: string, description: string)

  /** The row `addRow()` appends. */
  const DEFAULT_ROW := SavedAddress("0", 0, SIZE_4_BYTES, "Name", "Description")

  /** A row's address is what its expression evaluates to. */
  predicate Consistent(rows: seq<SavedAddress>, eval: Evaluator) {
    forall i :: 0 <= i < |rows| ==> rows[i].address == EvaluateAddress(rows[i].expression, eval)
  }

  /** `HeaderColumns`. */
  const EXPRESSION := 0
  const ADDRESS := 1
  const SIZE := 2
  const VALUE := 3
  const LABEL := 4
  const DESCRIPTION := 5

  /** Qt item roles. */
  const DISPLAY_ROLE := 0
  const EDIT_ROLE := 2
  const CHECK_STATE_ROLE := 10
  const USER_ROLE := 0x100

  datatype ItemFlags = ItemFlags(enabled: bool, selectable: bool, editable: bool)

  /** `flags`: every cell is enabled and selectable; all but ADDRESS and
      VALUE are editable. */
  function Flags(column: int): ItemFlags {
    ItemFlags(true, true, column != ADDRESS && column != VALUE)
  }

  /** `QVariant::toInt` of a text value: 0 when it is not a number. */
  function VariantToInt(value: string): int {
    ParseDecimal(value).GetOr(0)
  }

  /** The row after `setData` in `column` with `role` (EditRole or
      UserRole): an edited expression is stored trimmed and re-evaluated,
      while a user-role expression is stored as given; a size is parsed from
      the byte count or, with UserRole, cast from the number; label and
      description are stored; other columns keep the row. */
  function Edited(e: SavedAddress, column: int, value: string, role: int, eval: Evaluator): SavedAddress {
    if role == EDIT_ROLE then
      if column == EXPRESSION then
        var input := Trim(value);
        e.(expression := input, address := EvaluateAddress(input, eval))
      else if column == SIZE then e.(size := StringToMemorySize(value))
      else if column == DESCRIPTION then e.(description := value)
      else if column == LABEL then e.(labelText := value)
      else e
    else
      if column == EXPRESSION then e.(expression := value, address := EvaluateAddress(value, eval))
      else if column == SIZE then e.(size := VariantToInt(value))
      else if column == DESCRIPTION then e.(description := value)
      else if column == LABEL then e.(labelText := value)
      else e
  }

  /** `setData` accepts a valid index with EditRole or UserRole. */
  predicate Settable(rowCount: nat, row: int, column: int, role: int) {
    0 <= row < rowCount && 0 <= column && (role == EDIT_ROLE || role == USER_ROLE)
  }

  /** Cells that are not editable never change. */
  lemma UneditableKept(e: SavedAddress, column: int, value: string, role: int, eval: Evaluator)
    requires !Flags(column).editable
    ensures Edited(e, column, value, role, eval) == e
  {
  }

  /** An edited expression is re-evaluated as stored, so an edit keeps the
      table consistent. */
  lemma EditedConsistent(rows: seq<SavedAddress>, row: nat, column: int, value: string, role: int, eval: Evaluator)
    requires row < |rows| && Consistent(rows, eval)
    ensures Consistent(rows[row := Edited(rows[row], column, value, role, eval)], eval)
  {
    var e := Edited(rows[row], column, value, role, eval);
    EditedRowConsistent(rows[row], column, value, role, eval);
    ReplacedConsistent(rows, row, e, eval);
  }

  lemma EditedRowConsistent(e: SavedAddress, column: int, value: string, role: int, eval: Evaluator)
    requires e.address == EvaluateAddress(e.expression, eval)
    ensures var r := Edited(e, column, value, role, eval);
            r.address == EvaluateAddress(r.expression, eval)
  {
  }

  lemma ReplacedConsistent(rows: seq<SavedAddress>, row: nat, e: SavedAddress, eval: Evaluator)
    requires row < |rows| && Consistent(rows, eval)
    requires e.address == EvaluateAddress(e.expression, eval)
    ensures Consistent(rows[row := e], eval)
  {
  }

  /** The default row is consistent: "0" evaluates to 0. */
  lemma DefaultRowConsistent(rows: seq<SavedAddress>, eval: Evaluator)
    requires Consistent(rows, eval)
    ensures Consistent(rows + [DEFAULT_ROW], eval)
  {
    assert HexDigits(0) == "0";
    HexEvaluates(0, eval);
    assert (rows + [DEFAULT_ROW])[|rows|] == DEFAULT_ROW;
  }

  /** `removeRows` accepts a non-empty range inside the table. */
  predicate Removable(rowCount: nat, row: int, count: int) {
    0 <= row && 1 <= count && row + count <= rowCount
  }

  /** The rows left after erasing [row, row + count). */
  function RemovedRows(rows: seq<SavedAddress>, row: nat, count: nat): seq<SavedAddress>
    requires row + count <= |rows|
  {
    rows[..row] + rows[row + count..]
  }

  /** Exactly `count` rows go; the rows before the range stay in place and
      the rows after it move up by `count`, in order. */
  lemma RemovedRowsShift(rows: seq<SavedAddress>, row: nat, count: nat)
    requires row + count <= |rows|
    ensures var r := RemovedRows(rows, row, count);
            && |r| == |rows| - count
            && (forall i :: 0 <= i < row ==> r[i] == rows[i])
            && (forall i :: row <= i < |r| ==> r[i] == rows[i + count])
  {
  }

  /** Removing the row just appended gives the table back. */
  lemma RemoveUndoesAdd(rows: seq<SavedAddress>, a: SavedAddress)
    ensures RemovedRows(rows + [a], |rows|, 1) == rows
  {
    assert (rows + [a])[..|rows|] == rows;
  }

  /** Removing rows keeps the table consistent. */
  lemma RemovedConsistent(rows: seq<SavedAddress>, row: nat, count: nat, eval: Evaluator)
    requires row + count <= |rows| && Consistent(rows, eval)
    ensures Consistent(RemovedRows(rows, row, count), eval)
  {
    RemovedRowsShift(rows, row, count);
  }

  /** The row `loadSavedAddressFromFieldList` adds, if any: six or more
      fields are EXPRESSION, ADDRESS, SIZE, VALUE, LABEL, DESCRIPTION; five
      are ADDRESS, SIZE, VALUE, LABEL, DESCRIPTION; three or four are
      ADDRESS, LABEL, DESCRIPTION at four bytes. Fewer than three fields,
      or a leading field that is not hex in the shorter formats, add nothing. */
  function Imported(fields: seq<string>, eval: Evaluator): Option<SavedAddress> {
    if |fields| < 3 then None
    else if |fields| >= 6 then
      Some(SavedAddress(fields[0], EvaluateAddress(fields[0], eval), StringToMemorySize(fields[2]),
                        fields[4], fields[5]))
    else
      match ParseHex(fields[0])
      case None => None
      case Some(a) =>
        if |fields| >= 5 then
          Some(SavedAddress(fields[0], a, StringToMemorySize(fields[1]), fields[3], fields[4]))
        else
          Some(SavedAddress(fields[0], a, SIZE_4_BYTES, fields[1], fields[2]))
  }

  /** Every import format yields a row whose address is what its
      expression evaluates to. */
  lemma ImportedConsistent(fields: seq<string>, eval: Evaluator)
    requires Imported(fields, eval).Some?
    ensures var r := Imported(fields, eval).value;
            r.address == EvaluateAddress(r.expression, eval)
  {
    if |fields| < 6 {
      EvaluateAddressCases(fields[0], eval);
    }
  }

  /** Importing keeps the table consistent. */
  lemma ImportKeepsConsistent(rows: seq<SavedAddress>, fields: seq<string>, eval: Evaluator)
    requires Consistent(rows, eval)
    ensures Consistent(rows + match Imported(fields, eval) case Some(a) => [a] case None => [], eval)
  {
    if Imported(fields, eval).Some? {
      ImportedConsistent(fields, eval);
      var r := rows + [Imported(fields, eval).value];
      assert forall i :: 0 <= i < |rows| ==> r[i] == rows[i];
    }
  }

  /** The six fields a row is exported as. */
  function ExportedFields(e: SavedAddress, value: string): seq<string> {
    [e.expression, HexDigits(e.address), MemorySizeToString(e.size), value, e.labelText, e.description]
  }

  /** A consistent row with a size inside the enum is imported back as itself. */
  lemma ExportImportRoundTrip(e: SavedAddress, value: string, eval: Evaluator)
    requires e.address == EvaluateAddress(e.expression, eval)
    requires SIZE_1_BYTE <= e.size <= SIZE_8_BYTES
    ensures Imported(ExportedFields(e, value), eval) == Some(e)
  {
    MemorySizeRoundTrip(e.size);
  }

  /** A legacy three-field line with a printed address imports at four bytes. */
  lemma LegacyImport(a: u32, name: string, description: string, eval: Evaluator)
    ensures Imported([HexDigits(a), name, description], eval)
         == Some(SavedAddress(HexDigits(a), a, SIZE_4_BYTES, name, description))
  {
    HexRoundTrip(a);
  }

  /** The table. */
  class SavedAddressesModel {
    var savedAddresses: seq<SavedAddress>

    constructor ()
      ensures savedAddresses == []
    {
      savedAddresses := [];
    }

    /** `addRow(SavedAddress)`: appended at the end. */
    method AddRow(a: SavedAddress)
      modifies this
      ensures savedAddresses == old(savedAddresses) + [a]
    {
      savedAddresses := savedAddresses + [a];
    }

    /** `addRow()`: the default row appended. */
    method AddDefaultRow()
      modifies this
      ensures savedAddresses == old(savedAddresses) + [DEFAULT_ROW]
    {
      AddRow(DEFAULT_ROW);
    }

    method RemoveRows(row: int, count: int) returns (ok: bool)
      modifies this
      ensures ok == Removable(|old(savedAddresses)|, row, count)
      ensures savedAddresses == if ok then RemovedRows(old(savedAddresses), row, count) else old(savedAddresses)
    {
      if row < 0 || count < 1 || row + count > |savedAddresses| {
        return false;
      }
      savedAddresses := savedAddresses[..row] + savedAddresses[row + count..];
      return true;
    }

    method SetData(row: int, column: int, value: string, role: int, eval: Evaluator) returns (ok: bool)
      modifies this
      ensures ok == Settable(|old(savedAddresses)|, row, column, role)
      ensures savedAddresses == if ok then old(savedAddresses)[row := Edited(old(savedAddresses)[row], column, value, role, eval)]
                                else old(savedAddresses)
    {
      if row < 0 || column < 0 || row >= |savedAddresses| {
        return false;
      }
      var entry := savedAddresses[row];
      if role == CHECK_STATE_ROLE {
        return false;
      }
      if role == EDIT_ROLE {
        if column == EXPRESSION {
          var input := Trim(value);
          entry := entry.(expression := input, address := EvaluateAddress(input, eval));
          savedAddresses := savedAddresses[row := entry];
          return true;
        }
        if column == SIZE {
          entry := entry.(size := StringToMemorySize(value));
        }
        if column == DESCRIPTION {
          entry := entry.(description := value);
        }
        if column == LABEL {
          entry := entry.(labelText := value);
        }
        savedAddresses := savedAddresses[row := entry];
        return true;
      } else if role == USER_ROLE {
        if column == EXPRESSION {
          entry := entry.(expression := value, address := EvaluateAddress(value, eval));
        }
        if column == SIZE {
          entry := entry.(size := VariantToInt(value));
        }
        if column == DESCRIPTION {
          entry := entry.(description := value);
        }
        if column == LABEL {
          entry := entry.(labelText := value);
        }
        savedAddresses := savedAddresses[row := entry];
        return true;
      }
      return false;
    }

    method LoadSavedAddressFromFieldList(fields: seq<string>, eval: Evaluator)
      modifies this
      ensures savedAddresses == old(savedAddresses) + match Imported(fields, eval)
                                                      case Some(a) => [a]
                                                      case None => []
    {
      if |fields| < 3 {
        return;
      }
      var imported: SavedAddress;
      if |fields| >= 6 {
        imported := SavedAddress(fields[0], EvaluateAddress(fields[0], eval), StringToMemorySize(fields[2]),
                                 fields[4], fields[5]);
      } else if |fields| >= 5 {
        var address := ParseHex(fields[0]);
        if address.None? {
          return;
        }
        imported := SavedAddress(fields[0], address.value, StringToMemorySize(fields[1]), fields[3], fields[4]);
      } else {
        var address := ParseHex(fields[0]);
        if address.None? {
          return;
        }
        imported := SavedAddress(fields[0], address.value, SIZE_4_BYTES, fields[1], fields[2]);
      }
      AddRow(imported);
    }

    method Clear()
      modifies this
      ensures savedAddresses == []
    {
      savedAddresses := [];
    }

    /** `refreshData`: every address re-evaluated from its expression, which
        makes the table consistent with the evaluator. */
    method RefreshData(eval: Evaluator)
      modifies this
      ensures |savedAddresses| == |old(savedAddresses)|
      ensures forall i :: 0 <= i < |savedAddresses| ==>
                savedAddresses[i] == old(savedAddresses)[i].(address := EvaluateAddress(old(savedAddresses)[i].expression, eval))
      ensures Consistent(savedAddresses, eval)
    {
      if savedAddresses == [] {
        return;
      }
      var i := 0;
      while i < |savedAddresses|
        invariant 0 <= i <= |savedAddresses| == |old(savedAddresses)|
        invariant forall j :: 0 <= j < i ==>
                    savedAddresses[j] == old(savedAddresses)[j].(address := EvaluateAddress(old(savedAddresses)[j].expression, eval))
        invariant forall j :: i <= j < |savedAddresses| ==> savedAddresses[j] == old(savedAddresses)[j]
      {
        savedAddresses := savedAddresses[i := savedAddresses[i].(address := EvaluateAddress(savedAddresses[i].expression, eval))];
        i := i + 1;
      }
    }
  }
}
