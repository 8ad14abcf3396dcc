/** The hex dump of a packet payload, and a column reader that undoes it. */
module HexDump {
  import opened Bytes
  import opened Wrappers

  const LINE_WIDTH: nat := 16
  const HEX_COLUMN: nat := 8     // five offset digits and three spaces
  const ASCII_COLUMN: nat := 60  // 16 cells of three characters, one extra space, three spaces
  const BLANK: string := "   "

  // ---------- Characters ----------

  function DigitChar(d: nat): char
    requires d < 16
  {
    if d < 10 then '0' + d as char else 'a' + (d - 10) as char
  }

  function DigitValue(c: char): Option<nat> {
    if '0' <= c <= '9' then Some((c - '0') as nat)
    else if 'a' <= c <= 'f' then Some(10 + (c - 'a') as nat)
    else None
  }

  /** `isprint` in the C locale. */
  predicate IsPrint(b: Byte) {
    32 <= b <= 126
  }

  function AsciiChar(b: Byte): char {
    if IsPrint(b) then b as char else '.'
  }

  /** `%02x ` */
  function HexCell(b: Byte): (s: string)
    ensures |s| == 3
  {
    [DigitChar(b / 16), DigitChar(b % 16), ' ']
  }

  /** `%05d` for a number that fits five digits. */
  function FiveDigits(n: nat): (s: string)
    requires n < 100000
    ensures |s| == 5
  {
    [DigitChar(n / 10000), DigitChar(n / 1000 % 10), DigitChar(n / 100 % 10), DigitChar(n / 10 % 10), DigitChar(n % 10)]
  }

  // ---------- One line ----------

  function HexCells(bytes: seq<Byte>): (s: string)
    ensures |s| == 3 * |bytes|
  {
    if bytes == [] then [] else HexCells(bytes[..|bytes| - 1]) + HexCell(bytes[|bytes| - 1])
  }

  function AsciiPart(bytes: seq<Byte>): (s: string)
    ensures |s| == |bytes|
    ensures forall i :: 0 <= i < |s| ==> s[i] == AsciiChar(bytes[i])
  {
    seq(|bytes|, i requires 0 <= i < |bytes| => AsciiChar(bytes[i]))
  }

  function Blanks(n: nat): (s: string)
    ensures |s| == 3 * n
    ensures forall i :: 0 <= i < |s| ==> s[i] == ' '
  {
    seq(3 * n, _ => ' ')
  }

  /** The cells, with an extra space after the eighth. */
  function Cells(bytes: seq<Byte>): (s: string)
    ensures |s| == 3 * |bytes| + if |bytes| < 8 then 0 else 1
  {
    if |bytes| < 8 then HexCells(bytes) else HexCells(bytes[..8]) + " " + HexCells(bytes[8..])
  }

  /** Spaces from the last cell to the ASCII column. */
  function Gap(len: nat): (s: string)
    requires len <= LINE_WIDTH
    ensures |s| == 3 * (LINE_WIDTH - len) + 3 + if len < 8 then 1 else 0
    ensures forall i :: 0 <= i < |s| ==> s[i] == ' '
  {
    (if len < 8 then " " else "") + Blanks(LINE_WIDTH - len) + BLANK
  }

  function Line(bytes: seq<Byte>, offset: nat): (s: string)
    requires |bytes| <= LINE_WIDTH && offset < 100000
    ensures |s| == ASCII_COLUMN + |bytes| + 1
  {
    FiveDigits(offset) + BLANK + Cells(bytes) + Gap(|bytes|) + AsciiPart(bytes) + "\n"
  }

  /** The lines of a payload: sixteen bytes each, the last one with what is left. */
  function Dump(payload: seq<Byte>, offset: nat): string
    requires offset + |payload| <= 100000
    decreases |payload|
  {
    if payload == [] then ""
    else if |payload| <= LINE_WIDTH then Line(payload, offset)
    else Line(payload[..LINE_WIDTH], offset) + Dump(payload[LINE_WIDTH..], offset + LINE_WIDTH)
  }

  lemma NoCells(bytes: seq<Byte>)
    ensures Cells(bytes[..0]) == ""
  {
  }

  /** One more byte adds its cell, and after the eighth the extra space. */
  lemma CellsStep(bytes: seq<Byte>, i: nat, before: string)
    requires i < |bytes|
    ensures before + Cells(bytes[..i + 1]) ==
            if i == 7 then (before + Cells(bytes[..i])) + HexCell(bytes[i]) + " "
            else (before + Cells(bytes[..i])) + HexCell(bytes[i])
  {
    var now, next := bytes[..i], bytes[..i + 1];
    hide HexCell;
    if i < 8 {
      assert next[..i] == now;
      if i == 7 {
        assert next[..8] == next && next[8..] == [];
      }
    } else {
      assert now[..8] == next[..8] && next[8..][..i - 8] == now[8..];
    }
  }

  // ---------- Printing ----------

  class Terminal {
    var out: string

    constructor ()
      ensures out == ""
    {
      out := "";
    }

    method Print(s: string)
      modifies this
      ensures out == old(out) + s
    {
      out := out + s;
    }

    method PrintHexAsciiLine(payload: seq<Byte>, len: nat, offset: nat)
      requires len <= LINE_WIDTH && len <= |payload| && offset < 100000
      modifies this
      ensures out == old(out) + Line(payload[..len], offset)
    {
      hide FiveDigits, Cells, Gap, AsciiPart;
      Print(FiveDigits(offset) + BLANK);
      PrintHex(payload[..len]);
      PrintGap(len);
      PrintAscii(payload[..len]);
      Print("\n");
    }

    /** The cells, with an extra space after the eighth. */
    method PrintHex(bytes: seq<Byte>)
      requires |bytes| <= LINE_WIDTH
      modifies this
      ensures out == old(out) + Cells(bytes)
    {
      hide *;
      NoCells(bytes);
      var i := 0;
      while i < |bytes|
        invariant i <= |bytes| && out == old(out) + Cells(bytes[..i])
      {
        CellsStep(bytes, i, old(out));
        Print(HexCell(bytes[i]));
        if i == 7 {
          Print(" ");
        }
        i := i + 1;
      }
      assert bytes[..i] == bytes;
    }

    method PrintGap(len: nat)
      requires len <= LINE_WIDTH
      modifies this
      ensures out == old(out) + Gap(len)
    {
      if len < 8 {
        Print(" ");
      }
      ghost var before := out;
      if len < 16 {
        var gap := 16 - len;
        var i := 0;
        while i < gap
          invariant i <= gap && out == before + Blanks(i)
        {
          Print("   ");
          i := i + 1;
        }
      }
      Print("   ");
    }

    method PrintAscii(bytes: seq<Byte>)
      modifies this
      ensures out == old(out) + AsciiPart(bytes)
    {
      var i := 0;
      while i < |bytes|
        invariant i <= |bytes| && out == old(out) + AsciiPart(bytes[..i])
      {
        if IsPrint(bytes[i]) {
          Print([bytes[i] as char]);
        } else {
          Print(".");
        }
        i := i + 1;
        assert AsciiPart(bytes[..i]) == AsciiPart(bytes[..i - 1]) + [AsciiChar(bytes[i - 1])];
      }
      assert bytes[..i] == bytes;
    }

    /**
      The loop over lines. Its line length is `line_width % len_rem`, which is the full width
      because the loop only runs while more than a line is left.
     */
    method PrintPayload(payload: seq<Byte>)
      requires |payload| <= 65535
      modifies this
      ensures out == old(out) + Dump(payload, 0)
    {
      hide *;
      var remaining, offset := |payload|, 0;
      if |payload| <= 0 {
        NothingToPrint(payload, out);
        return;
      }
      PrintedStart(payload, out);
      if |payload| <= LINE_WIDTH {
        PrintedEnd(payload, 0, old(out), out);
        PrintHexAsciiLine(payload, |payload|, offset);
        return;
      }
      var ch := 0;
      while true
        invariant remaining > LINE_WIDTH && ch + remaining == |payload| && offset == ch
        invariant Printed(payload, ch, old(out), out)
        decreases remaining
      {
        var lineLen := LineLength(remaining);
        PrintedStep(payload, ch, old(out), out);
        PrintHexAsciiLine(payload[ch..], lineLen, offset);
        remaining := remaining - lineLen;
        ch := ch + lineLen;
        offset := offset + LINE_WIDTH;
        if remaining <= LINE_WIDTH {
          PrintedEnd(payload, ch, old(out), out);
          PrintHexAsciiLine(payload[ch..], remaining, offset);
          break;
        }
      }
    }
  }

  /** The remainder is the full width because more than a line is left. */
  method LineLength(remaining: nat) returns (len: nat)
    requires remaining > LINE_WIDTH
    ensures len == LINE_WIDTH && len > 0
  {
    len := LINE_WIDTH % remaining;
  }

  /** With the first `ch` bytes printed, what is to come makes up the whole dump. */
  ghost predicate Printed(payload: seq<Byte>, ch: nat, before: string, out: string)
    requires |payload| <= 65535 && ch <= |payload|
  {
    before + Dump(payload, 0) == out + Dump(payload[ch..], ch)
  }

  lemma NothingToPrint(payload: seq<Byte>, out: string)
    requires payload == []
    ensures out + Dump(payload, 0) == out
  {
  }

  lemma PrintedStart(payload: seq<Byte>, out: string)
    requires |payload| <= 65535
    ensures Printed(payload, 0, out, out) && payload[0..] == payload
  {
    assert payload[0..] == payload;
  }

  lemma PrintedStep(payload: seq<Byte>, ch: nat, before: string, out: string)
    requires |payload| <= 65535 && ch + LINE_WIDTH < |payload| && Printed(payload, ch, before, out)
    ensures Printed(payload, ch + LINE_WIDTH, before, out + Line(payload[ch..][..LINE_WIDTH], ch))
  {
    hide Line;
    assert payload[ch..][LINE_WIDTH..] == payload[ch + LINE_WIDTH..];
  }

  lemma PrintedEnd(payload: seq<Byte>, ch: nat, before: string, out: string)
    requires |payload| <= 65535 && ch < |payload| <= ch + LINE_WIDTH && Printed(payload, ch, before, out)
    ensures before + Dump(payload, 0) == out + Line(payload[ch..][..|payload| - ch], ch)
  {
    hide Line;
    assert payload[ch..][..|payload| - ch] == payload[ch..];
  }

  // ---------- Reading a dump back by columns ----------

  function CellColumn(i: nat): nat {
    HEX_COLUMN + 3 * i + if i < 8 then 0 else 1
  }

  /** The byte in the i-th cell, or None where the cell is blank. */
  function ReadCell(line: string, i: nat): Option<Byte>
    requires |line| >= ASCII_COLUMN && i < LINE_WIDTH
  {
    var hi, lo := DigitValue(line[CellColumn(i)]), DigitValue(line[CellColumn(i) + 1]);
    if hi.Some? && lo.Some? then Some(16 * hi.value + lo.value) else None
  }

  /** The bytes of cell i and the following ones, up to the first blank cell. */
  function ReadCells(line: string, i: nat): seq<Byte>
    requires |line| >= ASCII_COLUMN && i <= LINE_WIDTH
    decreases LINE_WIDTH - i
  {
    if i == LINE_WIDTH || ReadCell(line, i).None? then [] else [ReadCell(line, i).value] + ReadCells(line, i + 1)
  }

  function ReadNumber(s: string): Option<nat> {
    if s == "" then Some(0)
    else match (ReadNumber(s[..|s| - 1]), DigitValue(s[|s| - 1]))
      case (Some(n), Some(d)) => Some(10 * n + d)
      case _ => None
  }

  datatype Row = Row(offset: nat, bytes: seq<Byte>)

  /** Splits at newlines and reads the offset and the cells of each line. */
  function ReadDump(text: string): Option<seq<Row>>
    decreases |text|
  {
    if text == "" then Some([])
    else
      var n := NewlineIndex(text);
      if n == |text| || n < ASCII_COLUMN then None
      else match (ReadNumber(text[..5]), ReadDump(text[n + 1..]))
        case (Some(offset), Some(rows)) => Some([Row(offset, ReadCells(text[..n], 0))] + rows)
        case _ => None
  }

  function NewlineIndex(text: string): (n: nat)
    ensures n <= |text|
    ensures n < |text| ==> text[n] == '\n'
    ensures forall i :: 0 <= i < n ==> text[i] != '\n'
  {
    if text == "" || text[0] == '\n' then 0 else 1 + NewlineIndex(text[1..])
  }

  // ---------- Every cell stands in its column ----------

  lemma DigitRoundTrip(d: nat)
    requires d < 16
    ensures DigitValue(DigitChar(d)) == Some(d)
  {
  }

  lemma {:induction false} CellInCells(bytes: seq<Byte>, i: nat)
    requires i < |bytes|
    ensures HexCells(bytes)[3 * i..3 * i + 3] == HexCell(bytes[i])
  {
    hide HexCell;
    var n := |bytes| - 1;
    if i < n {
      CellInCells(bytes[..n], i);
      assert HexCells(bytes)[3 * i..3 * i + 3] == HexCells(bytes[..n])[3 * i..3 * i + 3];
    } else {
      assert HexCells(bytes)[3 * i..3 * i + 3] == HexCell(bytes[n]);
    }
  }

  lemma CellColumnInLine(bytes: seq<Byte>, offset: nat, i: nat)
    requires i < |bytes| <= LINE_WIDTH && offset < 100000
    ensures Line(bytes, offset)[CellColumn(i)..CellColumn(i) + 3] == HexCell(bytes[i])
  {
    CellInPaddedCells(bytes, i);
    hide HexCell, FiveDigits, Gap, AsciiPart, Cells;
    var before, after := FiveDigits(offset) + BLANK, Gap(|bytes|) + AsciiPart(bytes) + "\n";
    assert Line(bytes, offset) == before + Cells(bytes) + after;
    Middle(before, Cells(bytes), after, CellColumn(i) - HEX_COLUMN, 3);
  }

  lemma Middle(a: string, b: string, c: string, from: nat, len: nat)
    requires from + len <= |b|
    ensures (a + b + c)[|a| + from..|a| + from + len] == b[from..from + len]
  {
  }

  lemma CellInPaddedCells(bytes: seq<Byte>, i: nat)
    requires i < |bytes| <= LINE_WIDTH
    ensures Cells(bytes)[CellColumn(i) - HEX_COLUMN..CellColumn(i) - HEX_COLUMN + 3] == HexCell(bytes[i])
  {
    hide HexCell, HexCells;
    if |bytes| < 8 {
      CellInCells(bytes, i);
    } else if i < 8 {
      CellInCells(bytes[..8], i);
      assert Cells(bytes)[3 * i..3 * i + 3] == HexCells(bytes[..8])[3 * i..3 * i + 3];
    } else {
      CellInCells(bytes[8..], i - 8);
      assert Cells(bytes)[3 * i + 1..3 * i + 4] == HexCells(bytes[8..])[3 * (i - 8)..3 * (i - 8) + 3];
    }
  }

  lemma BlankColumnInLine(bytes: seq<Byte>, offset: nat, i: nat)
    requires |bytes| <= i < LINE_WIDTH && offset < 100000
    ensures Line(bytes, offset)[CellColumn(i)] == ' '
  {
    hide HexCell, FiveDigits, Gap, AsciiPart, HexCells, Cells;
    var line, c := Line(bytes, offset), CellColumn(i);
    assert line == (FiveDigits(offset) + BLANK + Cells(bytes)) + (Gap(|bytes|) + (AsciiPart(bytes) + "\n"));
    assert line[c] == Gap(|bytes|)[c - HEX_COLUMN - |Cells(bytes)|];
  }

  /** The ASCII part of every line starts at the same column. */
  lemma AsciiColumnInLine(bytes: seq<Byte>, offset: nat)
    requires |bytes| <= LINE_WIDTH && offset < 100000
    ensures Line(bytes, offset)[ASCII_COLUMN..] == AsciiPart(bytes) + "\n"
  {
    hide HexCell, FiveDigits, Gap, AsciiPart, HexCells, Cells;
    var before := FiveDigits(offset) + BLANK + Cells(bytes) + Gap(|bytes|);
    assert Line(bytes, offset) == before + (AsciiPart(bytes) + "\n");
  }

  /** Column 60 + i of a line shows byte i as it is if it lies between the space and the tilde, and a dot otherwise. */
  lemma AsciiCharacterInLine(bytes: seq<Byte>, offset: nat, i: nat)
    requires i < |bytes| <= LINE_WIDTH && offset < 100000
    ensures 32 <= bytes[i] <= 126 ==> Line(bytes, offset)[60 + i] == bytes[i] as char
    ensures bytes[i] < 32 || 126 < bytes[i] ==> Line(bytes, offset)[60 + i] == '.'
  {
    AsciiColumnInLine(bytes, offset);
    hide Line;
    assert Line(bytes, offset)[60 + i] == Line(bytes, offset)[ASCII_COLUMN..][i] == AsciiChar(bytes[i]);
  }

  lemma CellRoundTrip(b: Byte)
    ensures DigitValue(HexCell(b)[0]) == Some(b / 16) && DigitValue(HexCell(b)[1]) == Some(b % 16)
  {
    DigitRoundTrip(b / 16);
    DigitRoundTrip(b % 16);
  }

  lemma {:induction false} CellsReadBack(bytes: seq<Byte>, offset: nat, i: nat)
    requires i <= |bytes| <= LINE_WIDTH && offset < 100000
    ensures ReadCells(Line(bytes, offset)[..ASCII_COLUMN + |bytes|], i) == bytes[i..]
    decreases LINE_WIDTH - i
  {
    hide Line, HexCell, DigitValue;
    var line := Line(bytes, offset)[..ASCII_COLUMN + |bytes|];
    if i < |bytes| {
      CellColumnInLine(bytes, offset, i);
      CellRoundTrip(bytes[i]);
      var cell := Line(bytes, offset)[CellColumn(i)..CellColumn(i) + 3];
      assert line[CellColumn(i)] == cell[0] && line[CellColumn(i) + 1] == cell[1];
      CellsReadBack(bytes, offset, i + 1);
      assert bytes[i..] == [bytes[i]] + bytes[i + 1..];
    } else if i < LINE_WIDTH {
      BlankColumnInLine(bytes, offset, i);
      BlankIsNoDigit();
    }
  }

  lemma BlankIsNoDigit()
    ensures DigitValue(' ') == None
  {
  }

  lemma NumberSnoc(s: string, n: nat, d: nat)
    requires ReadNumber(s) == Some(n) && d < 10
    ensures ReadNumber(s + [DigitChar(d)]) == Some(10 * n + d)
  {
    DigitRoundTrip(d);
    hide DigitChar, DigitValue;
    assert (s + [DigitChar(d)])[..|s|] == s;
  }

  lemma Quotients(n: nat)
    ensures 10 * (n / 10000) + n / 1000 % 10 == n / 1000
    ensures 10 * (n / 1000) + n / 100 % 10 == n / 100
    ensures 10 * (n / 100) + n / 10 % 10 == n / 10
  {
  }

  lemma OffsetReadBack(n: nat)
    requires n < 100000
    ensures ReadNumber(FiveDigits(n)) == Some(n)
  {
    Quotients(n);
    var a, b, c, d, e := n / 10000, n / 1000 % 10, n / 100 % 10, n / 10 % 10, n % 10;
    NumberSnoc("", 0, a);
    hide ReadNumber, DigitChar;
    var s1 := "" + [DigitChar(a)];
    NumberSnoc(s1, n / 10000, b);
    NumberSnoc(s1 + [DigitChar(b)], n / 1000, c);
    NumberSnoc(s1 + [DigitChar(b)] + [DigitChar(c)], n / 100, d);
    NumberSnoc(s1 + [DigitChar(b)] + [DigitChar(c)] + [DigitChar(d)], n / 10, e);
    assert FiveDigits(n) == s1 + [DigitChar(b)] + [DigitChar(c)] + [DigitChar(d)] + [DigitChar(e)];
  }

  // ---------- The whole dump ----------

  ghost predicate OneLine(s: string) {
    forall i :: 0 <= i < |s| ==> s[i] != '\n'
  }

  lemma {:induction false} HexCellsOneLine(bytes: seq<Byte>)
    ensures OneLine(HexCells(bytes))
  {
    if bytes != [] {
      HexCellsOneLine(bytes[..|bytes| - 1]);
    }
  }

  /** A newline ends every line and occurs nowhere else in it. */
  lemma LineIsOneLine(bytes: seq<Byte>, offset: nat)
    requires |bytes| <= LINE_WIDTH && offset < 100000
    ensures OneLine(Line(bytes, offset)[..ASCII_COLUMN + |bytes|])
    ensures Line(bytes, offset)[ASCII_COLUMN + |bytes|] == '\n'
  {
    HexCellsOneLine(bytes);
    HexCellsOneLine(if |bytes| < 8 then bytes else bytes[..8]);
    HexCellsOneLine(if |bytes| < 8 then bytes else bytes[8..]);
    assert OneLine(FiveDigits(offset) + BLANK);
    assert OneLine(Cells(bytes)) && OneLine(Gap(|bytes|)) && OneLine(AsciiPart(bytes));
    hide FiveDigits, Cells, Gap, AsciiPart;
    var a := FiveDigits(offset) + BLANK + Cells(bytes) + Gap(|bytes|) + AsciiPart(bytes);
    assert Line(bytes, offset) == a + "\n";
    assert OneLine(a);
    assert Line(bytes, offset)[..ASCII_COLUMN + |bytes|] == a;
  }

  lemma LineReadBack(bytes: seq<Byte>, offset: nat, rest: string)
    requires |bytes| <= LINE_WIDTH && offset < 100000
    ensures var text := Line(bytes, offset) + rest;
      ReadDump(text) == match ReadDump(rest)
                        case Some(rows) => Some([Row(offset, bytes)] + rows)
                        case None => None
  {
    var line := Line(bytes, offset);
    var text, n := line + rest, ASCII_COLUMN + |bytes|;
    LineIsOneLine(bytes, offset);
    OffsetReadBack(offset);
    CellsReadBack(bytes, offset, 0);
    OffsetStartsLine(bytes, offset);
    hide Line, FiveDigits, ReadNumber, ReadCells;
    assert text[..5] == line[..5] && text[..n] == line[..n] && text[n + 1..] == rest;
    assert forall i :: 0 <= i < n ==> text[i] == line[..n][i];
    assert text[n] == '\n';
    assert NewlineIndex(text) == n;
    assert bytes[0..] == bytes;
  }

  lemma OffsetStartsLine(bytes: seq<Byte>, offset: nat)
    requires |bytes| <= LINE_WIDTH && offset < 100000
    ensures Line(bytes, offset)[..5] == FiveDigits(offset)
  {
    hide FiveDigits, Cells, Gap, AsciiPart;
    assert Line(bytes, offset) == FiveDigits(offset) + (BLANK + Cells(bytes) + Gap(|bytes|) + AsciiPart(bytes) + "\n");
  }

  /** Row k holds the sixteen bytes from offset 16 k on, or what is left of them. */
  ghost predicate RowsOk(rows: seq<Row>, payload: seq<Byte>, offset: nat) {
    && |rows| == (|payload| + LINE_WIDTH - 1) / LINE_WIDTH
    && forall k :: 0 <= k < |rows| ==> RowOk(rows[k], payload, offset, k)
  }

  ghost predicate RowOk(row: Row, payload: seq<Byte>, offset: nat, k: nat) {
    var from := LINE_WIDTH * k;
    var to := if from + LINE_WIDTH <= |payload| then from + LINE_WIDTH else |payload|;
    from < to && row == Row(offset + from, payload[from..to])
  }

  lemma {:induction false} DumpReadBack(payload: seq<Byte>, offset: nat)
    requires offset + |payload| <= 100000
    ensures ReadDump(Dump(payload, offset)).Some?
    ensures RowsOk(ReadDump(Dump(payload, offset)).value, payload, offset)
    decreases |payload|
  {
    hide Line, NewlineIndex, ReadNumber, ReadCells;
    if payload == [] {
    } else if |payload| <= LINE_WIDTH {
      LineReadBack(payload, offset, "");
      assert Line(payload, offset) + "" == Line(payload, offset);
      assert payload[0..|payload|] == payload;
    } else {
      var first, rest := payload[..LINE_WIDTH], payload[LINE_WIDTH..];
      LineReadBack(first, offset, Dump(rest, offset + LINE_WIDTH));
      DumpReadBack(rest, offset + LINE_WIDTH);
      RowsCons(payload, offset, ReadDump(Dump(rest, offset + LINE_WIDTH)).value);
    }
  }

  lemma RowsCons(payload: seq<Byte>, offset: nat, rest: seq<Row>)
    requires |payload| > LINE_WIDTH && RowsOk(rest, payload[LINE_WIDTH..], offset + LINE_WIDTH)
    ensures RowsOk([Row(offset, payload[..LINE_WIDTH])] + rest, payload, offset)
  {
    var rows := [Row(offset, payload[..LINE_WIDTH])] + rest;
    forall k | 0 <= k < |rows| ensures RowOk(rows[k], payload, offset, k) {
      if k > 0 {
        assert RowOk(rest[k - 1], payload[LINE_WIDTH..], offset + LINE_WIDTH, k - 1);
        var from := LINE_WIDTH * (k - 1);
        var to := if from + LINE_WIDTH <= |payload| - LINE_WIDTH then from + LINE_WIDTH else |payload| - LINE_WIDTH;
        assert payload[LINE_WIDTH..][from..to] == payload[LINE_WIDTH + from..LINE_WIDTH + to];
      }
    }
  }

  function Joined(rows: seq<Row>): seq<Byte> {
    if rows == [] then [] else Joined(rows[..|rows| - 1]) + rows[|rows| - 1].bytes
  }

  lemma {:induction false} RowsJoin(rows: seq<Row>, payload: seq<Byte>, offset: nat, k: nat)
    requires RowsOk(rows, payload, offset) && k <= |rows|
    ensures Joined(rows[..k]) == payload[..if LINE_WIDTH * k <= |payload| then LINE_WIDTH * k else |payload|]
  {
    if k > 0 {
      RowsJoin(rows, payload, offset, k - 1);
      assert rows[..k][..k - 1] == rows[..k - 1];
      assert RowOk(rows[k - 1], payload, offset, k - 1);
    }
  }

  /**
    The dump is invertible: reading columns gives one row per sixteen bytes, at the printed offsets,
    and the rows joined are the payload.
   */
  lemma {:induction false} DumpIsInvertible(payload: seq<Byte>)
    requires |payload| <= 65535
    ensures var r := ReadDump(Dump(payload, 0));
      r.Some? && RowsOk(r.value, payload, 0) && Joined(r.value) == payload
  {
    hide *;
    DumpReadBack(payload, 0);
    RowsJoinAll(ReadDump(Dump(payload, 0)).value, payload);
  }

  lemma RowsJoinAll(rows: seq<Row>, payload: seq<Byte>)
    requires RowsOk(rows, payload, 0)
    ensures Joined(rows) == payload
  {
    hide *;
    RowsJoin(rows, payload, 0, |rows|);
    RowsCover(rows, payload, 0);
    assert rows[..|rows|] == rows && payload[..|payload|] == payload;
  }

  lemma RowsCover(rows: seq<Row>, payload: seq<Byte>, offset: nat)
    requires RowsOk(rows, payload, offset)
    ensures LINE_WIDTH * |rows| >= |payload|
  {
  }
}
