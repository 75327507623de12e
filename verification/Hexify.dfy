/** The hex dump of received entropy (internal/hexify/hexify.go): a flat loop, its line-by-line meaning, a decoder. */
module Hexify {
  import opened Base
  import opened Fmt
  import opened Bits

  // ----- Line by line -----

  function Printable(b: Byte): (c: char)
    ensures 32 as char <= c <= 126 as char
  {
    if b < 32 || b > 126 then '.' else b as char
  }

  /** %4d */
  function Pad4(n: nat): (s: string)
    ensures |s| >= 4
  {
    var d := Decimal(n);
    if |d| >= 4 then d else seq(4 - |d|, _ => ' ') + d
  }

  /** The hex column of position j; positions past the end are blank. */
  function Cell(chunk: seq<Byte>, j: nat): (s: string)
    ensures |s| == 3
  {
    if j < |chunk| then " " + Hex2(chunk[j]) else "   "
  }

  /** Where the hex column of position j starts; a blank separates groups of eight. */
  function ColumnStart(j: nat): nat
    requires j < 16
  {
    3 * j + if j < 8 then 1 else 2
  }

  /** The first m hex columns, in groups of eight. */
  function Columns(chunk: seq<Byte>, m: nat): (s: string)
    requires m <= 16
    ensures |s| == if m == 0 then 0 else ColumnStart(m - 1) + 3
  {
    if m == 0 then ""
    else Columns(chunk, m - 1) + (if (m - 1) % 8 == 0 then " " else "") + Cell(chunk, m - 1)
  }

  /** The text column. */
  function Text(chunk: seq<Byte>): (s: string)
    ensures |s| == 16
  {
    seq(16, j requires 0 <= j < 16 => if j < |chunk| then Printable(chunk[j]) else ' ')
  }

  function LineBody(offset: nat, chunk: seq<Byte>): (s: string)
    ensures |s| >= 72
  {
    Pad4(offset) + Columns(chunk, 16) + "  " + Text(chunk)
  }

  function Take16(b: seq<Byte>): seq<Byte> {
    if |b| <= 16 then b else b[..16]
  }

  /** The dump: one line for every sixteen bytes. */
  function Dump(input: seq<Byte>, offset: nat): string {
    if input == [] then ""
    else LineBody(offset, Take16(input)) + "\n" + Dump(input[|Take16(input)|..], offset + 16)
  }

  // ----- The flat loop -----

  method Format(input: seq<Byte>) returns (out: string)
    ensures out == Dump(input, 0)
  {
    hide *;
    out := "";
    var buf := new char[16](_ => 0 as char);
    var lines := (|input| + 15) / 16;
    var n := lines * 16;
    ghost var done, line := "", 0;
    assert done + Dump(Rest(input, 0), 0) == Dump(input, 0) && LinePart(input, 0, 0) == "" by {
      Start(input);
    }
    for i := 0 to n
      invariant 16 * line <= i <= 16 * line + 15
      invariant done + Dump(Rest(input, 16 * line), 16 * line) == Dump(input, 0)
      invariant out == done + LinePart(input, 16 * line, i - 16 * line)
      invariant forall j :: 0 <= j < i - 16 * line ==> buf[j] == TextOf(input, 16 * line + j)
    {
      ghost var offset, col := 16 * line, i - 16 * line;
      InLine(i, line);
      ghost var before := out;
      if i % 16 == 0 {
        out := out + Pad4(i);
      }
      if i % 8 == 0 {
        out := out + " ";
      }
      if i < |input| {
        out := out + (" " + Hex2(input[i]));
      } else {
        out := out + "   ";
      }
      assert out == done + LinePart(input, offset, col + 1) by {
        OneTurn(input, offset, col, done, before, out);
      }
      TextOfIs(input, i);
      if i >= |input| {
        buf[i % 16] := ' ';
      } else if input[i] < 32 || input[i] > 126 {
        buf[i % 16] := '.';
      } else {
        buf[i % 16] := input[i] as char;
      }
      if i % 16 == 15 {
        out := out + ("  " + buf[..] + "\n");
        assert offset < |input|;
        NextLine(input, offset, done, buf[..], out);
        done, line := out, line + 1;
      }
    }
    assert line == lines;
    NothingLeft(input, 16 * line);
  }

  lemma InLine(i: nat, line: nat)
    requires 16 * line <= i <= 16 * line + 15
    ensures i % 16 == i - 16 * line && i % 8 == (i - 16 * line) % 8
  {
    var col := i - 16 * line;
    DivModUnique(i, 16, line, col);
    DivModUnique(i, 8, if col < 8 then 2 * line else 2 * line + 1, if col < 8 then col else col - 8);
  }

  /** The input from a line start on. */
  function Rest(input: seq<Byte>, offset: nat): seq<Byte> {
    if offset < |input| then input[offset..] else []
  }

  /** The character for a position in the text column. */
  function TextOf(input: seq<Byte>, i: nat): char {
    if i < |input| then Printable(input[i]) else ' '
  }

  lemma TextOfIs(input: seq<Byte>, i: nat)
    ensures TextOf(input, i)
            == if i >= |input| then ' ' else if input[i] < 32 || input[i] > 126 then '.' else input[i] as char
  {
  }

  lemma Start(input: seq<Byte>)
    ensures "" + Dump(Rest(input, 0), 0) == Dump(input, 0) && LinePart(input, 0, 0) == ""
  {
    assert Rest(input, 0) == input;
  }

  lemma NothingLeft(input: seq<Byte>, offset: nat)
    requires offset == (|input| + 15) / 16 * 16
    ensures Dump(Rest(input, offset), offset) == "" && LinePart(input, offset, 0) == ""
  {
  }

  /** What the loop prints at one position before the text column, and at the first m positions of a line. */
  function Piece(input: seq<Byte>, offset: nat, col: nat): string {
    (if col == 0 then Pad4(offset) else "")
    + ((if col % 8 == 0 then " " else "") + (if offset + col < |input| then " " + Hex2(input[offset + col]) else "   "))
  }

  function LinePart(input: seq<Byte>, offset: nat, m: nat): string {
    if m == 0 then "" else LinePart(input, offset, m - 1) + Piece(input, offset, m - 1)
  }

  lemma OneTurn(input: seq<Byte>, offset: nat, col: nat, done: string, before: string, after: string)
    requires before == done + LinePart(input, offset, col)
    requires var a := if col == 0 then before + Pad4(offset) else before;
             var b := if col % 8 == 0 then a + " " else a;
             after == b + if offset + col < |input| then " " + Hex2(input[offset + col]) else "   "
    ensures after == done + LinePart(input, offset, col + 1)
  {
    hide Hex2, Pad4;
    var a := if col == 0 then Pad4(offset) else "";
    var b := if col % 8 == 0 then " " else "";
    var c := if offset + col < |input| then " " + Hex2(input[offset + col]) else "   ";
    assert LinePart(input, offset, col + 1) == LinePart(input, offset, col) + (a + (b + c));
    hide LinePart, Piece;
    assert after == ((before + a) + b) + c by {
      assert before + "" == before && before + a + "" == before + a;
    }
    assert after == before + (a + (b + c));
    assert done + LinePart(input, offset, col) + (a + (b + c)) == done + (LinePart(input, offset, col) + (a + (b + c)));
  }

  /** Concatenation is associative, and empty strings do not show. */
  lemma Glue(pad: string, columns: string, b: string, c: string)
    ensures "" + (pad + (b + c)) == pad + ("" + b + c)
    ensures pad + columns + ("" + (b + c)) == pad + (columns + b + c)
    ensures pad + columns + (b + c) == pad + columns + b + c
  {
    assert b + c == "" + (b + c) == "" + b + c;
    assert columns + (b + c) == columns + b + c;
  }

  lemma PieceIs(input: seq<Byte>, offset: nat, col: nat)
    requires col < 16 && offset < |input|
    ensures Piece(input, offset, col)
            == (if col == 0 then Pad4(offset) else "")
               + ((if col % 8 == 0 then " " else "") + Cell(Take16(Rest(input, offset)), col))
  {
    hide Pad4, Hex2;
    var chunk := Take16(Rest(input, offset));
    assert offset + col < |input| <==> col < |chunk|;
    assert offset + col < |input| ==> chunk[col] == input[offset + col];
  }

  /** The flat printing of a line's positions is its offset and hex columns. */
  lemma {:induction false} LinePartIsColumns(input: seq<Byte>, offset: nat, m: nat)
    requires 0 < m <= 16 && offset < |input|
    ensures LinePart(input, offset, m) == Pad4(offset) + Columns(Take16(Rest(input, offset)), m)
  {
    hide Pad4, Cell, Piece, Take16, Rest;
    var chunk, col := Take16(Rest(input, offset)), m - 1;
    PieceIs(input, offset, col);
    Glue(Pad4(offset), Columns(chunk, col), if col % 8 == 0 then " " else "", Cell(chunk, col));
    if col > 0 {
      LinePartIsColumns(input, offset, col);
    }
  }

  /** A completed line is the next line of the dump, and its text column shows this line's bytes only. */
  lemma NextLine(input: seq<Byte>, offset: nat, done: string, buf: string, out: string)
    requires offset < |input| && |buf| == 16
    requires done + Dump(Rest(input, offset), offset) == Dump(input, 0)
    requires out == done + LinePart(input, offset, 16) + ("  " + buf + "\n")
    requires forall j :: 0 <= j < 16 ==> buf[j] == TextOf(input, offset + j)
    ensures out + Dump(Rest(input, offset + 16), offset + 16) == Dump(input, 0)
    ensures LinePart(input, offset + 16, 0) == ""
  {
    assert LinePart(input, offset + 16, 0) == "";
    hide Pad4, Columns, LineBody, Dump, Text, Take16, Rest;
    var chunk := Take16(Rest(input, offset));
    LinePartIsColumns(input, offset, 16);
    TextColumn(input, offset, buf);
    DumpNext(input, offset);
    BodyIs(offset, chunk);
    hide LinePart, TextOf;
    GlueLine(done, Pad4(offset) + Columns(chunk, 16), "  " + buf + "\n", Dump(Rest(input, offset + 16), offset + 16));
  }

  lemma GlueLine(done: string, columns: string, text: string, next: string)
    ensures done + columns + text + next == done + (columns + text + next)
  {
    assert done + columns + text == done + (columns + text);
  }

  lemma TextColumn(input: seq<Byte>, offset: nat, buf: string)
    requires offset < |input| && |buf| == 16
    requires forall j :: 0 <= j < 16 ==> buf[j] == TextOf(input, offset + j)
    ensures buf == Text(Take16(Rest(input, offset)))
  {
  }

  lemma DumpNext(input: seq<Byte>, offset: nat)
    requires offset < |input|
    ensures Dump(Rest(input, offset), offset)
            == LineBody(offset, Take16(Rest(input, offset))) + "\n" + Dump(Rest(input, offset + 16), offset + 16)
  {
    hide LineBody;
    var rest := Rest(input, offset);
    assert rest[|Take16(rest)|..] == Rest(input, offset + 16);
  }

  lemma BodyIs(offset: nat, chunk: seq<Byte>)
    ensures LineBody(offset, chunk) + "\n" == Pad4(offset) + Columns(chunk, 16) + ("  " + Text(chunk) + "\n")
  {
    hide Pad4, Columns, Text;
  }

  // ----- The decoder -----

  /** The position of the first line end, or the length. */
  function LineEnd(s: string): (e: nat)
    ensures e <= |s|
  {
    if s == "" || s[0] == '\n' then 0 else 1 + LineEnd(s[1..])
  }

  /** The hex columns of a line, counted from its end, up to the first blank one. */
  function DecodeColumns(hex: string, j: nat): seq<int>
    requires |hex| == 50 && j <= 16
    decreases 16 - j
  {
    if j == 16 then []
    else
      var p := ColumnStart(j) + 1;
      if hex[p] == ' ' then [] else [16 * HexValue(hex[p]) + HexValue(hex[p + 1])] + DecodeColumns(hex, j + 1)
  }

  function Decode(dump: string): seq<int>
    decreases |dump|
  {
    var e := LineEnd(dump);
    if e == |dump| || e < 68 then []
    else DecodeColumns(dump[e - 68..e - 18], 0) + Decode(dump[e + 1..])
  }

  lemma {:induction false} LineEndOf(body: string, rest: string)
    requires '\n' !in body
    ensures LineEnd(body + "\n" + rest) == |body|
  {
    var s := body + "\n" + rest;
    if body != "" {
      assert s[1..] == body[1..] + "\n" + rest;
      LineEndOf(body[1..], rest);
    }
  }

  lemma ColumnStartsAscend(i: nat, j: nat)
    requires i < j < 16
    ensures ColumnStart(i) + 3 <= ColumnStart(j)
  {
  }

  /** Where a hex column is found. */
  lemma {:induction false} ColumnAt(chunk: seq<Byte>, m: nat, j: nat)
    requires j < m <= 16
    ensures ColumnStart(j) + 3 <= |Columns(chunk, m)|
    ensures forall k :: 0 <= k < 3 ==> Columns(chunk, m)[ColumnStart(j) + k] == Cell(chunk, j)[k]
  {
    var before := Columns(chunk, m - 1) + if (m - 1) % 8 == 0 then " " else "";
    assert Columns(chunk, m) == before + Cell(chunk, m - 1);
    assert |before| == ColumnStart(m - 1);
    if j < m - 1 {
      ColumnAt(chunk, m - 1, j);
      ColumnStartsAscend(j, m - 1);
    }
    hide Columns, Cell, ColumnStart;
  }

  lemma DecodeColumnsStep(hex: string, j: nat)
    requires |hex| == 50 && j < 16
    ensures ColumnStart(j) + 2 < 50
    ensures DecodeColumns(hex, j)
            == if hex[ColumnStart(j) + 1] == ' ' then []
               else [16 * HexValue(hex[ColumnStart(j) + 1]) + HexValue(hex[ColumnStart(j) + 2])] + DecodeColumns(hex, j + 1)
  {
    hide HexValue;
  }

  lemma {:induction false} DecodeColumnsOf(chunk: seq<Byte>, j: nat)
    requires j <= |chunk| <= 16
    ensures DecodeColumns(Columns(chunk, 16), j) == chunk[j..]
    decreases 16 - j
  {
    hide *;
    if j == 16 {
      NoMoreColumns(chunk);
    } else {
      DecodeColumnsAt(chunk, j);
      if j < |chunk| {
        DecodeColumnsOf(chunk, j + 1);
        HeadAndTail(chunk, j);
      }
    }
  }

  lemma NoMoreColumns(chunk: seq<Byte>)
    ensures DecodeColumns(Columns(chunk, 16), 16) == []
  {
    hide Columns;
  }

  lemma HeadAndTail(s: seq<int>, j: nat)
    requires j < |s|
    ensures [s[j]] + s[j + 1..] == s[j..]
  {
  }

  lemma DecodeColumnsAt(chunk: seq<Byte>, j: nat)
    requires j <= |chunk| <= 16 && j < 16
    ensures DecodeColumns(Columns(chunk, 16), j)
            == if j < |chunk| then [chunk[j] as int] + DecodeColumns(Columns(chunk, 16), j + 1) else []
  {
    var hex := Columns(chunk, 16);
    DecodeColumnsStep(hex, j);
    ColumnAt(chunk, 16, j);
    CellDecodes(chunk, j);
    hide DecodeColumns, Columns, Cell, ColumnStart, HexValue;
    assert hex[ColumnStart(j) + 1] == Cell(chunk, j)[1] && hex[ColumnStart(j) + 2] == Cell(chunk, j)[2];
  }

  /** A column is blank exactly past the end, and otherwise its digits give the byte. */
  lemma CellDecodes(chunk: seq<Byte>, j: nat)
    ensures Cell(chunk, j)[1] == ' ' <==> j >= |chunk|
    ensures j < |chunk| ==> 16 * HexValue(Cell(chunk, j)[1]) + HexValue(Cell(chunk, j)[2]) == chunk[j]
  {
    hide Hex2;
  }

  lemma DecodeLine(body: string, rest: string)
    requires '\n' !in body && |body| >= 68
    ensures Decode(body + "\n" + rest) == DecodeColumns(body[|body| - 68..|body| - 18], 0) + Decode(rest)
  {
    var dump, e := body + "\n" + rest, |body|;
    LineEndOf(body, rest);
    hide DecodeColumns, LineEnd;
    assert dump[e - 68..e - 18] == body[e - 68..e - 18];
    assert dump[e + 1..] == rest;
  }

  /** The dump determines its input: the decoder recovers every byte sequence. */
  lemma {:induction false} DumpDecodes(input: seq<Byte>, offset: nat)
    ensures Decode(Dump(input, offset)) == input
    decreases |input|
  {
    if input == [] {
      assert LineEnd("") == 0;
    } else {
      DumpDecodes(input[|Take16(input)|..], offset + 16);
      DumpDecodesLine(input, offset);
    }
  }

  lemma DumpDecodesLine(input: seq<Byte>, offset: nat)
    requires input != []
    requires Decode(Dump(input[|Take16(input)|..], offset + 16)) == input[|Take16(input)|..]
    ensures Decode(Dump(input, offset)) == input
  {
    hide LineBody, Decode, DecodeColumns, Columns;
    var chunk := Take16(input);
    assert Dump(input, offset) == LineBody(offset, chunk) + "\n" + Dump(input[|chunk|..], offset + 16);
    hide Dump;
    BodyIsOneLine(offset, chunk);
    DecodeLine(LineBody(offset, chunk), Dump(input[|chunk|..], offset + 16));
    HexOfLine(offset, chunk);
    DecodeColumnsOf(chunk, 0);
    assert chunk[0..] == chunk && input == chunk + input[|chunk|..];
  }

  lemma {:induction false} ColumnsAreOneLine(chunk: seq<Byte>, m: nat)
    requires m <= 16
    ensures '\n' !in Columns(chunk, m)
  {
    if m > 0 {
      ColumnsAreOneLine(chunk, m - 1);
      var b := if (m - 1) % 8 == 0 then " " else "";
      assert Columns(chunk, m) == Columns(chunk, m - 1) + b + Cell(chunk, m - 1);
      assert '\n' !in b && '\n' !in Cell(chunk, m - 1);
    }
  }

  /** A line holds no line end but its last character. */
  lemma BodyIsOneLine(offset: nat, chunk: seq<Byte>)
    ensures '\n' !in LineBody(offset, chunk)
  {
    assert '\n' !in Pad4(offset);
    ColumnsAreOneLine(chunk, 16);
    assert '\n' !in "  ";
    assert '\n' !in Text(chunk);
    hide Pad4, Columns, Text;
  }

  lemma HexOfLine(offset: nat, chunk: seq<Byte>)
    ensures var body := LineBody(offset, chunk);
            body[|body| - 68..|body| - 18] == Columns(chunk, 16)
  {
    hide Columns, Text, Pad4;
    var a, b := Pad4(offset), Columns(chunk, 16);
    var body := LineBody(offset, chunk);
    assert |b| == 50;
    assert body == a + b + ("  " + Text(chunk));
    assert |body| - 68 == |a|;
  }

  function PowerOfTen(k: nat): nat {
    if k == 0 then 1 else 10 * PowerOfTen(k - 1)
  }

  lemma {:induction false} DecimalLength(n: nat, k: nat)
    requires k > 0 && n < PowerOfTen(k)
    ensures |Decimal(n)| <= k
    decreases k
  {
    if n >= 10 {
      assert PowerOfTen(1) == 10 by { assert PowerOfTen(0) == 1; }
      DecimalLength(n / 10, k - 1);
    }
  }

  /** A line whose offset has at most four digits. */
  lemma LineIs73(offset: nat, chunk: seq<Byte>)
    requires offset < 10000
    ensures var line := LineBody(offset, chunk) + "\n";
            |line| == 73 && line[..72] == LineBody(offset, chunk) && '\n' !in line[..72]
  {
    assert PowerOfTen(4) == 10000 by {
      assert PowerOfTen(2) == 100;
    }
    DecimalLength(offset, 4);
    BodyIsOneLine(offset, chunk);
    hide Decimal, Columns, Text;
    assert |LineBody(offset, chunk)| == 72;
  }

  /** While offsets stay below 10000, every line has 73 characters, one line for every sixteen bytes begun. */
  lemma {:induction false} DumpLength(input: seq<Byte>, offset: nat)
    requires offset % 16 == 0 && offset + |input| <= 10000
    ensures |Dump(input, offset)| == 73 * ((|input| + 15) / 16)
    decreases |input|
  {
    if input != [] {
      var m := |Take16(input)|;
      DumpLength(input[m..], offset + 16);
      LineIs73(offset, Take16(input));
      hide Decimal, LineBody;
      assert (|input| + 15) / 16 == 1 + (|input| - m + 15) / 16;
    }
  }

  /**
   While offsets stay below 10000, line k of the dump is the one of the bytes from 16k on, and those bytes
   alone: 73 characters, the last of them the only line end.
   */
  lemma {:induction false} LineAt(input: seq<Byte>, offset: nat, k: nat)
    requires offset % 16 == 0 && offset + |input| <= 10000 && 16 * k < |input|
    ensures var line := LineBody(offset + 16 * k, Take16(input[16 * k..])) + "\n";
            && |line| == 73 && '\n' !in line[..72]
            && 73 * k + 73 <= |Dump(input, offset)|
            && Dump(input, offset)[73 * k..73 * k + 73] == line
    decreases k
  {
    hide *;
    DumpStarts(input, offset);
    if k == 0 {
      assert input[0..] == input;
    } else {
      LineAt(input[16..], offset + 16, k - 1);
      assert input[16..][16 * (k - 1)..] == input[16 * k..];
      Shifted(LineBody(offset, Take16(input)) + "\n", Dump(input[16..], offset + 16), 73 * (k - 1));
    }
  }

  lemma DumpStarts(input: seq<Byte>, offset: nat)
    requires input != [] && offset < 10000
    ensures var line := LineBody(offset, Take16(input)) + "\n";
            && |line| == 73 && '\n' !in line[..72]
            && |Dump(input, offset)| >= 73 && Dump(input, offset)[..73] == line
            && (|input| > 16 ==> Dump(input, offset) == line + Dump(input[16..], offset + 16))
  {
    hide LineBody;
    LineIs73(offset, Take16(input));
  }

  lemma Shifted(first: string, rest: string, i: nat)
    requires |first| == 73 && i + 73 <= |rest|
    ensures (first + rest)[i + 73..i + 146] == rest[i..i + 73]
  {
  }

  // ----- What a line shows -----

  /** Offsets below 10000 are right-justified in four characters. */
  lemma Pad4Digits(n: nat)
    requires n < 10000
    ensures |Pad4(n)| == 4
    ensures Pad4(n)[3] == "0123456789"[n % 10]
    ensures Pad4(n)[2] == if n < 10 then ' ' else "0123456789"[n / 10 % 10]
    ensures Pad4(n)[1] == if n < 100 then ' ' else "0123456789"[n / 100 % 10]
    ensures Pad4(n)[0] == if n < 1000 then ' ' else "0123456789"[n / 1000 % 10]
  {
    Tenth(n, 10);
    Tenth(n, 100);
    Below(n);
    hide *;
    FourDigits(n, n / 10, n / 100, n / 1000);
  }

  lemma Below(n: nat)
    requires n < 10000
    ensures n / 1000 < 10 && n / 1000 % 10 == n / 1000
    ensures (n / 10 < 10 <==> n < 100) && (n / 100 < 10 <==> n < 1000)
  {
  }

  lemma FourDigits(n: nat, a: nat, b: nat, c: nat)
    requires a == n / 10 && b == a / 10 && c == b / 10 && c < 10
    ensures var s := Pad4(n);
            && |s| == 4 && s[3] == "0123456789"[n % 10] && s[2] == (if n < 10 then ' ' else "0123456789"[a % 10])
            && s[1] == (if a < 10 then ' ' else "0123456789"[b % 10]) && s[0] == (if b < 10 then ' ' else "0123456789"[c])
  {
    DecimalStep(n);
    DecimalStep(a);
    DecimalStep(b);
    DecimalStep(c);
    hide Decimal, Digit;
    if n < 10 {
      assert Decimal(n) == ["0123456789"[n % 10]];
    } else if a < 10 {
      assert Decimal(n) == ["0123456789"[a % 10], "0123456789"[n % 10]];
    } else if b < 10 {
      assert Decimal(n) == ["0123456789"[b % 10], "0123456789"[a % 10], "0123456789"[n % 10]];
    } else {
      assert Decimal(n) == ["0123456789"[c], "0123456789"[b % 10], "0123456789"[a % 10], "0123456789"[n % 10]];
    }
  }

  lemma Tenth(n: nat, d: nat)
    requires d > 0
    ensures n / d / 10 == n / (10 * d)
  {
    assert n == d * (n / d) + n % d;
    assert n / d == 10 * (n / d / 10) + n / d % 10;
    Digits(n, d, n / d, n % d, n / d / 10, n / d % 10);
    DivModUnique(n, 10 * d, n / d / 10, d * (n / d % 10) + n % d);
  }

  lemma Digits(n: nat, d: nat, m: nat, s: nat, q: nat, r: nat)
    requires n == d * m + s && s < d && m == 10 * q + r && r < 10
    ensures n == q * (10 * d) + (d * r + s) && d * r + s < 10 * d
  {
    assert d * (10 * q + r) == q * (10 * d) + d * r;
    MultipleIsFar(9 - r, d);
    assert (9 - r) * d == 9 * d - d * r;
  }

  lemma DecimalStep(n: nat)
    ensures Decimal(n) == (if n < 10 then "" else Decimal(n / 10)) + ["0123456789"[n % 10]]
  {
    DigitIs(n % 10);
    hide Digit;
  }

  lemma DigitIs(d: nat)
    requires d < 10
    ensures Digit(d) == "0123456789"[d]
  {
  }

  lemma HexDigitIs(d: nat)
    requires d < 16
    ensures HexDigit(d) == "0123456789ABCDEF"[d]
  {
  }

  /** A blank precedes each eight columns. */
  lemma {:induction false} BlankBeforeEight(chunk: seq<Byte>, m: nat)
    requires 0 < m <= 16
    ensures Columns(chunk, m)[0] == ' ' && (m > 8 ==> Columns(chunk, m)[25] == ' ')
  {
    assert Columns(chunk, m) == Columns(chunk, m - 1) + (if (m - 1) % 8 == 0 then " " else "") + Cell(chunk, m - 1);
    if m > 1 {
      BlankBeforeEight(chunk, m - 1);
    }
    hide Columns, Cell;
  }

  /**
   A line of a dump: its offset in four characters, sixteen columns of a blank and two upper-case hex digits with a
   blank before each eight, and the sixteen bytes as text with a dot for what is not printable. Columns past the
   end are blank.
   */
  lemma LineShows(offset: nat, chunk: seq<Byte>, j: nat)
    requires offset < 10000 && |chunk| <= 16 && j < 16
    ensures var line, at := LineBody(offset, chunk), if j < 8 then 5 + 3 * j else 6 + 3 * j;
            && |line| == 72 && line[..4] == Pad4(offset)
            && line[4] == line[29] == line[54] == line[55] == line[at] == ' '
            && if j < |chunk|
               then && line[at + 1] == "0123456789ABCDEF"[chunk[j] / 16] && line[at + 2] == "0123456789ABCDEF"[chunk[j] % 16]
                    && line[56 + j] == if 32 <= chunk[j] <= 126 then chunk[j] as char else '.'
               else line[at + 1] == line[at + 2] == line[56 + j] == ' '
  {
    Pad4Digits(offset);
    ColumnAt(chunk, 16, j);
    BlankBeforeEight(chunk, 16);
    CellIs(chunk, j);
    TextIs(chunk, j);
    LineIsThree(offset, chunk);
    var a, b, c := Pad4(offset), Columns(chunk, 16), Text(chunk);
    var i := ColumnStart(j);
    assert i == (if j < 8 then 1 + 3 * j else 2 + 3 * j) && |a| == 4 && |b| == 50;
    hide *;
    InThree(a, b, c, i, j);
  }

  lemma LineIsThree(offset: nat, chunk: seq<Byte>)
    ensures LineBody(offset, chunk) == Pad4(offset) + Columns(chunk, 16) + "  " + Text(chunk)
  {
  }

  lemma TextIs(chunk: seq<Byte>, j: nat)
    requires j < 16
    ensures Text(chunk)[j]
            == if j >= |chunk| then ' ' else if 32 <= chunk[j] <= 126 then chunk[j] as char else '.'
  {
  }

  lemma CellIs(chunk: seq<Byte>, j: nat)
    ensures Cell(chunk, j)[0] == ' '
    ensures if j < |chunk|
            then && Cell(chunk, j)[1] == "0123456789ABCDEF"[chunk[j] / 16]
                 && Cell(chunk, j)[2] == "0123456789ABCDEF"[chunk[j] % 16]
            else Cell(chunk, j)[1] == ' ' && Cell(chunk, j)[2] == ' '
  {
    if j < |chunk| {
      HexDigitIs(chunk[j] / 16);
      HexDigitIs(chunk[j] % 16);
    }
    hide HexDigit;
  }

  lemma InThree(a: string, b: string, c: string, i: nat, j: nat)
    requires |a| == 4 && |b| == 50 && |c| == 16 && i + 2 < 50 && j < 16
    ensures var line := a + b + "  " + c;
            && |line| == 72 && line[..4] == a && line[4] == b[0] && line[29] == b[25] && line[54] == line[55] == ' '
            && line[4 + i] == b[i] && line[4 + i + 1] == b[i + 1] && line[4 + i + 2] == b[i + 2] && line[56 + j] == c[j]
  {
  }
}
