/**
 * The plain PGM ("P2") text the simulator writes and reads, at the level of
 * integers: the encoder used by sim_world_save / map_save, and the decoder
 * that sim_world_load performs with fgets and fscanf("%d").
 *
 * The sample values themselves (128 wall, 255 empty, 0 base, k dirt) are
 * mapped to grid characters in module SimWorld.
 */
module Pgm {
  import opened Types

  // ---------------------------------------------------------------------------
  // Characters and integers as text
  // ---------------------------------------------------------------------------

  /** The characters C's isspace accepts (and fscanf skips before "%d"). */
  predicate IsSpace(c: char) {
    c == ' ' || c == '\t' || c == '\n' || c == '\r' || c as int == 11 || c as int == 12
  }

  predicate AllSpace(s: string) {
    forall i :: 0 <= i < |s| ==> IsSpace(s[i])
  }

  predicate AllDigits(s: string) {
    forall i :: 0 <= i < |s| ==> IsDigit(s[i])
  }

  /** The decimal digits of n, most significant first, as printf("%d") writes them. */
  function NatToString(n: nat): (s: string)
    ensures |s| >= 1
    decreases n
  {
    if n < 10 then [DigitChar(n)] else NatToString(n / 10) + [DigitChar(n % 10)]
  }

  function IntToString(v: int): (s: string)
    ensures |s| >= 1
  {
    if v < 0 then "-" + NatToString(-v) else NatToString(v)
  }

  /** The value of a digit string, read left to right. */
  function DigitsValue(ds: string): int {
    if ds == [] then 0
    else 10 * DigitsValue(ds[..|ds| - 1]) + (ds[|ds| - 1] as int - '0' as int)
  }

  // ---------------------------------------------------------------------------
  // The stream operations the loader uses
  // ---------------------------------------------------------------------------

  /** What fscanf skips before a conversion: the longest prefix of white space. */
  function SkipSpace(s: string): (t: string)
    ensures |t| <= |s|
  {
    if s != [] && IsSpace(s[0]) then SkipSpace(s[1..]) else s
  }

  /** The number of leading decimal digits of s. */
  function DigitRun(s: string): (n: nat)
    ensures n <= |s|
  {
    if s != [] && IsDigit(s[0]) then 1 + DigitRun(s[1..]) else 0
  }

  /** The digits at the head of u as a magnitude, with the rest of u. */
  function ScanDigits(u: string): Option<(int, string)> {
    var k := DigitRun(u);
    if k == 0 then None else Some((DigitsValue(u[..k]), u[k..]))
  }

  /** A signed integer at the head of t (which starts past the white space). */
  function ScanSigned(t: string): Option<(int, string)> {
    if t != [] && (t[0] == '-' || t[0] == '+') then
      match ScanDigits(t[1..])
      case None => None
      case Some((mag, rest)) => Some((if t[0] == '-' then -mag else mag, rest))
    else
      match ScanDigits(t)
      case None => None
      case Some((mag, rest)) => Some((mag, rest))
  }

  /**
   * fscanf(fd, "%d", &v): skip white space, accept an optional sign, then at
   * least one digit. On success the value and the unread rest of the stream;
   * None when no integer is there.
   */
  function ScanInt(s: string): (r: Option<(int, string)>)
    ensures r.Some? ==> |r.value.1| < |s| && IsDigit(s[|s| - |r.value.1| - 1])
  {
    var t := SkipSpace(s);
    SkipSpaceSuffix(s);
    if ScanSigned(t).Some? then
      ScanSignedConsumes(t);
      var rest := ScanSigned(t).value.1;
      assert s[|s| - |t|..] == t;
      assert s[|s| - |rest| - 1] == t[|t| - |rest| - 1];
      ScanSigned(t)
    else
      ScanSigned(t)
  }

  /**
   * fgets(line, room + 1, fd) with the line discarded: consume up to room
   * characters, stopping after the first newline.
   */
  function ReadLine(s: string, room: nat): (rest: string)
    ensures |rest| <= |s|
  {
    if s == [] || room == 0 then s
    else if s[0] == '\n' then s[1..]
    else ReadLine(s[1..], room - 1)
  }

  /** The loader's line buffer is char line[50]: fgets reads at most 49 characters. */
  const LINE_ROOM: nat := 49

  /** n integers read one after the other, with the rest of the stream. */
  function ScanSamples(s: string, n: nat): (r: Option<(seq<int>, string)>)
    ensures r.Some? ==> |r.value.0| == n
    decreases n
  {
    if n == 0 then Some(([], s))
    else
      match ScanInt(s)
      case None => None
      case Some((v, s1)) =>
        match ScanSamples(s1, n - 1)
        case None => None
        case Some((vs, s2)) => Some(([v] + vs, s2))
  }

  /** The loader's body: per row, width samples then one fgets; any count <= 0 reads nothing. */
  function ScanRows(s: string, height: int, width: int): Option<seq<seq<int>>>
    decreases Count(height)
  {
    if height <= 0 then Some([])
    else
      match ScanSamples(s, Count(width))
      case None => None
      case Some((row, s1)) =>
        match ScanRows(ReadLine(s1, LINE_ROOM), height - 1, width)
        case None => None
        case Some(rows) => Some([row] + rows)
  }

  /** How many times a C for loop `for (i = 0; i < n; i++)` runs. */
  function Count(n: int): nat {
    if n < 0 then 0 else n
  }

  // ---------------------------------------------------------------------------
  // Images
  // ---------------------------------------------------------------------------

  /** A decoded image: width is the number of columns, height the number of rows. */
  datatype Image = Image(width: int, height: int, maxval: int, rows: seq<seq<int>>)

  /** The outcome of reading a map file. */
  datatype Decoded = Malformed | Oversized(width: int, height: int) | Decoded(img: Image)

  /** rows has height rows of width samples each (no rows for a non-positive count). */
  predicate Shaped(rows: seq<seq<int>>, height: int, width: int) {
    |rows| == Count(height) && forall i :: 0 <= i < |rows| ==> |rows[i]| == Count(width)
  }

  // Encoded text is written in continuation style, `X + (Y + rest)`, so that
  // reading it back never needs regrouping of concatenations.

  /** The samples of one row, each followed by a space, then t. */
  function ValuesThen(row: seq<int>, t: string): string {
    if row == [] then t else IntToString(row[0]) + (" " + ValuesThen(row[1..], t))
  }

  /** Every row followed by a newline, then t. */
  function RowsThen(rows: seq<seq<int>>, t: string): string {
    if rows == [] then t else ValuesThen(rows[0], "\n" + RowsThen(rows[1..], t))
  }

  const MAGIC: string := "P2"
  const COMMENT: string := "#roomba map"

  /** The header's numeric lines, "width height" and "maxval", then t. */
  function SizesThen(width: int, height: int, maxval: int, t: string): string {
    IntToString(width) + (" " + (IntToString(height) + ("\n" + (IntToString(maxval) + ("\n" + t)))))
  }

  /** The header the simulator writes: magic number, comment line, sizes; then t. */
  function HeaderThen(width: int, height: int, maxval: int, t: string): string {
    MAGIC + ("\n" + (COMMENT + ("\n" + SizesThen(width, height, maxval, t))))
  }

  /** The whole file: header, then height lines of samples. */
  function Encode(img: Image): (s: string)
    ensures ReadLine(ReadLine(s, LINE_ROOM), LINE_ROOM) == SizesThen(img.width, img.height, img.maxval, RowsThen(img.rows, ""))
  {
    SkipHeaderLines(img.width, img.height, img.maxval, RowsThen(img.rows, ""));
    HeaderThen(img.width, img.height, img.maxval, RowsThen(img.rows, ""))
  }

  /**
   * What sim_world_load reads: two lines skipped, then width, height and
   * maxval, then the samples. A size above WORLDSIZE is refused before any
   * sample is read. A missing integer anywhere is Malformed.
   */
  function Decode(s: string): (d: Decoded)
    ensures d.Oversized? ==> d.width > WORLDSIZE || d.height > WORLDSIZE
    ensures d.Decoded? ==> d.img.width <= WORLDSIZE && d.img.height <= WORLDSIZE
  {
    var body := ReadLine(ReadLine(s, LINE_ROOM), LINE_ROOM);
    match ScanInt(body)
    case None => Malformed
    case Some((w, s1)) =>
      match ScanInt(s1)
      case None => Malformed
      case Some((h, s2)) =>
        match ScanInt(s2)
        case None => Malformed
        case Some((mx, s3)) => DecodeBody(w, h, mx, s3)
  }

  /** The loader after the header: refuse an oversized map, else read its rows. */
  function DecodeBody(w: int, h: int, mx: int, s: string): Decoded {
    if h > WORLDSIZE || w > WORLDSIZE then Oversized(w, h)
    else
      match ScanRows(s, h, w)
      case None => Malformed
      case Some(rows) => Decoded(Image(w, h, mx, rows))
  }

  // ---------------------------------------------------------------------------
  // What the stream operations consume
  // ---------------------------------------------------------------------------

  /** SkipSpace drops exactly the leading white space: what remains starts with none. */
  lemma {:induction false} SkipSpaceSuffix(s: string)
    ensures var t := SkipSpace(s);
      AllSpace(s[..|s| - |t|]) && s[|s| - |t|..] == t && (t == [] || !IsSpace(t[0]))
    decreases |s|
  {
    if s != [] && IsSpace(s[0]) {
      SkipSpaceSuffix(s[1..]);
      var t := SkipSpace(s[1..]);
      assert s[..|s| - |t|] == [s[0]] + s[1..][..|s[1..]| - |t|];
      assert s[|s| - |t|..] == s[1..][|s[1..]| - |t|..];
    } else {
      assert s[..0] == [];
    }
  }

  /** DigitRun counts the longest prefix of digits. */
  lemma {:induction false} DigitRunMaximal(s: string)
    ensures AllDigits(s[..DigitRun(s)])
    ensures DigitRun(s) == |s| || !IsDigit(s[DigitRun(s)])
    decreases |s|
  {
    if s != [] && IsDigit(s[0]) {
      DigitRunMaximal(s[1..]);
      var n := DigitRun(s);
      assert s[..n] == [s[0]] + s[1..][..n - 1];
      assert n == |s| || s[n] == s[1..][n - 1];
    }
  }

  /**
   * An integer that fscanf reads consumes at least one character and stops
   * before a digit; the rest is a suffix of the stream.
   */
  lemma ScanIntConsumes(s: string)
    requires ScanInt(s).Some?
    ensures var rest := ScanInt(s).value.1;
      |rest| < |s| && s[|s| - |rest|..] == rest && (rest == [] || !IsDigit(rest[0]))
  {
    var t := SkipSpace(s);
    SkipSpaceSuffix(s);
    ScanSignedConsumes(t);
    var rest := ScanSigned(t).value.1;
    assert s[|s| - |t|..] == t;
    assert t[|t| - |rest|..] == s[|s| - |rest|..];
  }

  lemma ScanSignedConsumes(t: string)
    requires ScanSigned(t).Some?
    ensures var rest := ScanSigned(t).value.1;
      |rest| < |t| && t[|t| - |rest|..] == rest && (rest == [] || !IsDigit(rest[0])) && IsDigit(t[|t| - |rest| - 1])
  {
    if t != [] && (t[0] == '-' || t[0] == '+') {
      var u := t[1..];
      ScanDigitsConsumes(u);
      var rest := ScanDigits(u).value.1;
      assert ScanSigned(t).value.1 == rest;
      assert t[|t| - |rest|..] == u[|u| - |rest|..];
      assert t[|t| - |rest| - 1] == u[|u| - |rest| - 1];
    } else {
      ScanDigitsConsumes(t);
      assert ScanSigned(t).value.1 == ScanDigits(t).value.1;
    }
  }

  lemma ScanDigitsConsumes(u: string)
    requires ScanDigits(u).Some?
    ensures var rest := ScanDigits(u).value.1;
      |rest| < |u| && u[|u| - |rest|..] == rest && (rest == [] || !IsDigit(rest[0])) && IsDigit(u[|u| - |rest| - 1])
  {
    DigitRunMaximal(u);
    var k := DigitRun(u);
    assert ScanDigits(u).value.1 == u[k..];
    assert u[k - 1] == u[..k][k - 1];
  }

  /** The rows the loader reads have the announced shape. */
  lemma {:induction false} ScanRowsShape(s: string, height: int, width: int)
    requires ScanRows(s, height, width).Some?
    ensures Shaped(ScanRows(s, height, width).value, height, width)
    decreases Count(height)
  {
    if height > 0 {
      var (row, s1) := ScanSamples(s, Count(width)).value;
      ScanRowsShape(ReadLine(s1, LINE_ROOM), height - 1, width);
      var rows := ScanRows(ReadLine(s1, LINE_ROOM), height - 1, width).value;
      assert ScanRows(s, height, width).value == [row] + rows;
    }
  }

  /** A decoded map is at most WORLDSIZE by WORLDSIZE and has the shape its header announces. */
  lemma DecodeShaped(s: string)
    requires Decode(s).Decoded?
    ensures var img := Decode(s).img;
      img.width <= WORLDSIZE && img.height <= WORLDSIZE && Shaped(img.rows, img.height, img.width)
  {
    var body := ReadLine(ReadLine(s, LINE_ROOM), LINE_ROOM);
    var (w, s1) := ScanInt(body).value;
    var (h, s2) := ScanInt(s1).value;
    var (mx, s3) := ScanInt(s2).value;
    assert Decode(s) == DecodeBody(w, h, mx, s3);
    ScanRowsShape(s3, h, w);
  }

  // ---------------------------------------------------------------------------
  // Reading back what was written
  // ---------------------------------------------------------------------------

  lemma {:induction false} SkipSpacePrefix(ws: string, t: string)
    requires AllSpace(ws)
    requires t == [] || !IsSpace(t[0])
    ensures SkipSpace(ws + t) == t
    decreases |ws|
  {
    if ws != [] {
      assert (ws + t)[1..] == ws[1..] + t;
      SkipSpacePrefix(ws[1..], t);
    } else {
      assert ws + t == t;
    }
  }

  lemma {:induction false} DigitRunPrefix(ds: string, t: string)
    requires AllDigits(ds)
    requires t == [] || !IsDigit(t[0])
    ensures DigitRun(ds + t) == |ds|
    decreases |ds|
  {
    if ds != [] {
      assert (ds + t)[0] == ds[0];
      assert (ds + t)[1..] == ds[1..] + t;
      DigitRunPrefix(ds[1..], t);
    } else {
      assert ds + t == t;
    }
  }

  /** Every character NatToString writes is a digit. */
  lemma {:induction false} NatToStringDigits(n: nat)
    ensures AllDigits(NatToString(n))
    decreases n
  {
    if n >= 10 {
      NatToStringDigits(n / 10);
      assert NatToString(n) == NatToString(n / 10) + [DigitChar(n % 10)];
    }
  }

  /** The digits NatToString writes read back as n. */
  lemma {:induction false} NatToStringValue(n: nat)
    ensures DigitsValue(NatToString(n)) == n
    decreases n
  {
    if n >= 10 {
      NatToStringValue(n / 10);
      var p := NatToString(n / 10);
      var s := p + [DigitChar(n % 10)];
      assert NatToString(n) == s;
      assert s[..|s| - 1] == p;
    }
  }

  /** A written integer holds no line break. */
  lemma IntToStringOneLine(v: int)
    ensures '\n' !in IntToString(v)
  {
    var n: nat := if v < 0 then -v else v;
    NatToStringDigits(n);
    assert '\n' !in NatToString(n);
  }

  /** A written integer starts with its sign or its leading digit. */
  lemma IntToStringHead(v: int)
    ensures IntToString(v)[0] == '-' || IsDigit(IntToString(v)[0])
  {
    if v < 0 {
      assert IntToString(v)[0] == '-';
    } else {
      NatToStringDigits(v);
    }
  }

  lemma ScanDigitsString(n: nat, t: string)
    requires t == [] || !IsDigit(t[0])
    ensures ScanDigits(NatToString(n) + t) == Some((n, t))
  {
    var ds := NatToString(n);
    var u := ds + t;
    NatToStringDigits(n);
    NatToStringValue(n);
    DigitRunPrefix(ds, t);
    assert u[..|ds|] == ds;
    assert u[|ds|..] == t;
  }

  lemma ConcatAssoc(a: string, b: string, c: string)
    ensures (a + b) + c == a + (b + c)
  {
  }

  lemma AppendEmpty(a: string)
    ensures a + "" == a
  {
  }

  lemma ScanSignedNegative(n: nat, t: string)
    requires t == [] || !IsDigit(t[0])
    ensures ScanSigned("-" + (NatToString(n) + t)) == Some((-(n as int), t))
  {
    var u := NatToString(n) + t;
    assert ("-" + u)[0] == '-';
    assert ("-" + u)[1..] == u;
    ScanDigitsString(n, t);
  }

  lemma ScanSignedNonNegative(n: nat, t: string)
    requires t == [] || !IsDigit(t[0])
    ensures ScanSigned(NatToString(n) + t) == Some((n, t))
  {
    var u := NatToString(n) + t;
    NatToStringDigits(n);
    assert u[0] == NatToString(n)[0];
    ScanDigitsString(n, t);
  }

  lemma ScanSignedString(v: int, t: string)
    requires t == [] || !IsDigit(t[0])
    ensures ScanSigned(IntToString(v) + t) == Some((v, t))
  {
    if v < 0 {
      var n: nat := -v;
      assert IntToString(v) == "-" + NatToString(n);
      ConcatAssoc("-", NatToString(n), t);
      var u := "-" + (NatToString(n) + t);
      assert IntToString(v) + t == u;
      ScanSignedNegative(n, t);
      assert ScanSigned(u) == Some((v, t));
    } else {
      var n: nat := v;
      assert IntToString(v) == NatToString(n);
      ScanSignedNonNegative(n, t);
    }
  }

  /** %d reads back exactly the integer printf("%d") wrote, after any white space. */
  lemma ScanIntString(ws: string, v: int, t: string)
    requires AllSpace(ws)
    requires t == [] || !IsDigit(t[0])
    ensures ScanInt(ws + (IntToString(v) + t)) == Some((v, t))
  {
    IntToStringHead(v);
    SkipSpacePrefix(ws, IntToString(v) + t);
    ScanSignedString(v, t);
  }

  /** Text that does not start with white space is left as it is by SkipSpace. */
  lemma SkipSpaceNone(s: string)
    requires s == [] || !IsSpace(s[0])
    ensures SkipSpace(s) == s
  {
  }

  /** One white-space character in front changes nothing for SkipSpace. */
  lemma SkipSpaceOne(c: char, s: string)
    requires IsSpace(c)
    ensures SkipSpace([c] + s) == SkipSpace(s)
  {
    assert ([c] + s)[1..] == s;
  }

  /** An encoded row starts with its first sample, so not with white space. */
  lemma ValuesThenHead(row: seq<int>, t: string)
    requires |row| >= 1
    ensures ValuesThen(row, t) == IntToString(row[0]) + (" " + ValuesThen(row[1..], t))
    ensures !IsSpace(ValuesThen(row, t)[0])
  {
    IntToStringHead(row[0]);
    assert ValuesThen(row, t)[0] == IntToString(row[0])[0];
  }

  /** One step of ScanSamples: the first integer, then the others. */
  lemma ScanSamplesCons(s: string, row: seq<int>, s1: string, s2: string)
    requires |row| >= 1
    requires ScanInt(s) == Some((row[0], s1))
    requires ScanSamples(s1, |row| - 1) == Some((row[1..], s2))
    ensures ScanSamples(s, |row|) == Some((row, s2))
  {
    assert [row[0]] + row[1..] == row;
  }

  /** The first integer of an encoded row is its first sample; the rest starts with a space. */
  lemma ScanFirstSample(s: string, row: seq<int>, t: string)
    requires |row| >= 1
    requires SkipSpace(s) == ValuesThen(row, t)
    ensures ScanInt(s) == Some((row[0], " " + ValuesThen(row[1..], t)))
  {
    var after := " " + ValuesThen(row[1..], t);
    ValuesThenHead(row, t);
    assert SkipSpace(s) == IntToString(row[0]) + after;
    ScanSignedString(row[0], after);
  }

  /** After one sample and its space, the next sample follows without white space. */
  lemma SkipSeparator(row: seq<int>, t: string)
    requires |row| >= 2
    ensures SkipSpace(" " + ValuesThen(row[1..], t)) == ValuesThen(row[1..], t)
  {
    var v := ValuesThen(row[1..], t);
    SkipSpaceOne(' ', v);
    ValuesThenHead(row[1..], t);
    SkipSpaceNone(v);
  }

  /**
   * The samples of a row are read back from any text that is the encoded
   * row once white space is skipped; the space after the last one is left.
   */
  /** A row is read back once its remaining samples are. */
  lemma ScanSamplesStep(s: string, row: seq<int>, t: string)
    requires |row| >= 1
    requires SkipSpace(s) == ValuesThen(row, t)
    requires ScanSamples(" " + ValuesThen(row[1..], t), |row| - 1) == Some((row[1..], " " + t))
    ensures ScanSamples(s, |row|) == Some((row, " " + t))
  {
    ScanFirstSample(s, row, t);
    ScanSamplesCons(s, row, " " + ValuesThen(row[1..], t), " " + t);
  }

  /** The last sample of a row is read back. */
  lemma ScanSamplesLast(s: string, row: seq<int>, t: string)
    requires |row| == 1
    requires SkipSpace(s) == ValuesThen(row, t)
    ensures ScanSamples(s, 1) == Some((row, " " + t))
  {
    assert ValuesThen(row[1..], t) == t;
    ScanSamplesStep(s, row, t);
  }

  lemma {:induction false} ScanSamplesEncoded(s: string, row: seq<int>, t: string)
    requires |row| >= 1
    requires SkipSpace(s) == ValuesThen(row, t)
    requires t == [] || !IsDigit(t[0])
    ensures ScanSamples(s, |row|) == Some((row, " " + t))
    decreases |row|
  {
    if |row| == 1 {
      ScanSamplesLast(s, row, t);
    } else {
      var after := " " + ValuesThen(row[1..], t);
      SkipSeparator(row, t);
      ScanSamplesEncoded(after, row[1..], t);
      ScanSamplesStep(s, row, t);
    }
  }

  lemma {:induction false} ReadLineThrough(p: string, r: string, room: nat)
    requires '\n' !in p && |p| < room
    ensures ReadLine(p + ("\n" + r), room) == r
    decreases |p|
  {
    if p != [] {
      assert (p + ("\n" + r))[0] == p[0];
      assert (p + ("\n" + r))[1..] == p[1..] + ("\n" + r);
      ReadLineThrough(p[1..], r, room - 1);
    }
  }

  /** One step of ScanRows: a row of samples, the rest of its line, then the other rows. */
  lemma ScanRowsCons(s: string, height: int, width: int, row: seq<int>, s1: string, s2: string, rows: seq<seq<int>>)
    requires height >= 1
    requires ScanSamples(s, Count(width)) == Some((row, s1))
    requires ReadLine(s1, LINE_ROOM) == s2
    requires ScanRows(s2, height - 1, width) == Some(rows)
    ensures ScanRows(s, height, width) == Some([row] + rows)
  {
  }

  /** The encoding of rows of positive width does not start with white space. */
  lemma RowsThenHead(rows: seq<seq<int>>)
    requires rows != [] && |rows[0]| >= 1
    ensures RowsThen(rows, "") == ValuesThen(rows[0], "\n" + RowsThen(rows[1..], ""))
    ensures !IsSpace(RowsThen(rows, "")[0])
  {
    ValuesThenHead(rows[0], "\n" + RowsThen(rows[1..], ""));
  }

  /** The first line of encoded rows is read back, and fgets then moves to the next row. */
  lemma ScanFirstRow(s: string, rows: seq<seq<int>>, width: int)
    requires width >= 1 && rows != [] && |rows[0]| == width
    requires SkipSpace(s) == RowsThen(rows, "")
    ensures ScanSamples(s, Count(width)) == Some((rows[0], " " + ("\n" + RowsThen(rows[1..], ""))))
    ensures ReadLine(" " + ("\n" + RowsThen(rows[1..], "")), LINE_ROOM) == RowsThen(rows[1..], "")
  {
    var tail := RowsThen(rows[1..], "");
    RowsThenHead(rows);
    ScanSamplesEncoded(s, rows[0], "\n" + tail);
    ReadLineThrough(" ", tail, LINE_ROOM);
  }

  /** The encoding of the remaining rows does not start with white space. */
  lemma RowsThenSkip(rows: seq<seq<int>>, width: int)
    requires width >= 1 && Shaped(rows, |rows|, width)
    ensures SkipSpace(RowsThen(rows, "")) == RowsThen(rows, "")
  {
    if rows != [] {
      RowsThenHead(rows);
    }
    SkipSpaceNone(RowsThen(rows, ""));
  }

  /**
   * All rows of positive width are read back from any text that is their
   * encoding once white space is skipped.
   */
  lemma {:induction false} ScanRowsEncoded(s: string, rows: seq<seq<int>>, width: int)
    requires width >= 1
    requires Shaped(rows, |rows|, width)
    requires SkipSpace(s) == RowsThen(rows, "")
    ensures ScanRows(s, |rows|, width) == Some(rows)
    decreases |rows|
  {
    if rows == [] {
      assert ScanRows(s, 0, width) == Some([]);
    } else {
      RowsThenSkip(rows[1..], width);
      ScanRowsEncoded(RowsThen(rows[1..], ""), rows[1..], width);
      ScanRowsEncodedStep(s, rows, width);
    }
  }

  /** The first encoded row is read, then the rows after it as the recursive case found. */
  lemma ScanRowsEncodedStep(s: string, rows: seq<seq<int>>, width: int)
    requires width >= 1 && rows != [] && |rows[0]| == width
    requires SkipSpace(s) == RowsThen(rows, "")
    requires ScanRows(RowsThen(rows[1..], ""), |rows| - 1, width) == Some(rows[1..])
    ensures ScanRows(s, |rows|, width) == Some(rows)
  {
    var tail := RowsThen(rows[1..], "");
    var s1 := " " + ("\n" + tail);
    assert [rows[0]] + rows[1..] == rows;
    ScanFirstRow(s, rows, width);
    ScanRowsCons(s, |rows|, width, rows[0], s1, tail, rows[1..]);
  }

  /** Rows of width <= 0 hold no samples, so any text reads as that many empty rows. */
  lemma {:induction false} ScanRowsNoWidth(s: string, rows: seq<seq<int>>, width: int)
    requires width <= 0
    requires Shaped(rows, |rows|, width)
    ensures ScanRows(s, |rows|, width) == Some(rows)
    decreases |rows|
  {
    if rows != [] {
      assert Count(width) == 0;
      assert ScanSamples(s, 0) == Some(([], s));
      assert rows[0] == [];
      ScanRowsNoWidth(ReadLine(s, LINE_ROOM), rows[1..], width);
      ScanRowsCons(s, |rows|, width, [], s, ReadLine(s, LINE_ROOM), rows[1..]);
      assert [rows[0]] + rows[1..] == rows;
    }
  }

  /** The loader's two fgets calls consume exactly the magic and comment lines. */
  lemma SkipHeaderLines(width: int, height: int, maxval: int, t: string)
    ensures ReadLine(ReadLine(HeaderThen(width, height, maxval, t), LINE_ROOM), LINE_ROOM)
         == SizesThen(width, height, maxval, t)
  {
    var x := SizesThen(width, height, maxval, t);
    ReadLineThrough(MAGIC, COMMENT + ("\n" + x), LINE_ROOM);
    ReadLineThrough(COMMENT, x, LINE_ROOM);
  }

  /** The three header integers are read back in order. */
  lemma ScanSizes(width: int, height: int, maxval: int, t: string)
    requires maxval >= 0
    ensures ScanInt(SizesThen(width, height, maxval, t))
         == Some((width, " " + (IntToString(height) + ("\n" + (IntToString(maxval) + ("\n" + t))))))
    ensures ScanInt(" " + (IntToString(height) + ("\n" + (IntToString(maxval) + ("\n" + t)))))
         == Some((height, "\n" + (IntToString(maxval) + ("\n" + t))))
    ensures ScanInt("\n" + (IntToString(maxval) + ("\n" + t))) == Some((maxval, "\n" + t))
  {
    var t1 := " " + (IntToString(height) + ("\n" + (IntToString(maxval) + ("\n" + t))));
    var t2 := "\n" + (IntToString(maxval) + ("\n" + t));
    assert ScanInt(SizesThen(width, height, maxval, t)) == Some((width, t1)) by {
      IntToStringHead(width);
      SkipSpaceNone(SizesThen(width, height, maxval, t));
      ScanSignedString(width, t1);
    }
    assert ScanInt(t1) == Some((height, t2)) by {
      IntToStringHead(height);
      SkipSpaceOne(' ', IntToString(height) + t2);
      SkipSpaceNone(IntToString(height) + t2);
      ScanSignedString(height, t2);
    }
    assert ScanInt(t2) == Some((maxval, "\n" + t)) by {
      IntToStringHead(maxval);
      SkipSpaceOne('\n', IntToString(maxval) + ("\n" + t));
      SkipSpaceNone(IntToString(maxval) + ("\n" + t));
      ScanSignedString(maxval, "\n" + t);
    }
  }

  /** Whatever follows the header, the loader reads the header's three integers. */
  lemma DecodeHeader(width: int, height: int, maxval: int, t: string)
    requires maxval >= 0
    ensures Decode(HeaderThen(width, height, maxval, t)) == DecodeBody(width, height, maxval, "\n" + t)
  {
    SkipHeaderLines(width, height, maxval, t);
    ScanSizes(width, height, maxval, t);
  }

  /**
   * Round trip: the loader reads back every image of at most WORLDSIZE rows
   * and columns that the writer produced.
   */
  lemma DecodeEncode(img: Image)
    requires img.width <= WORLDSIZE && img.height <= WORLDSIZE && img.maxval >= 0
    requires Shaped(img.rows, img.height, img.width)
    ensures Decode(Encode(img)) == Decoded(img)
  {
    var r := RowsThen(img.rows, "");
    DecodeHeader(img.width, img.height, img.maxval, r);
    assert |img.rows| == Count(img.height);
    if img.width >= 1 {
      SkipSpaceOne('\n', r);
      RowsThenSkip(img.rows, img.width);
      ScanRowsEncoded("\n" + r, img.rows, img.width);
    } else {
      ScanRowsNoWidth("\n" + r, img.rows, img.width);
    }
  }

  // ---------------------------------------------------------------------------
  // Writing the text piece by piece
  // ---------------------------------------------------------------------------

  /** The header is a prefix: what follows it is appended unchanged. */
  lemma HeaderSplit(width: int, height: int, maxval: int, t: string)
    ensures HeaderThen(width, height, maxval, t) == HeaderThen(width, height, maxval, "") + t
  {
    var a := IntToString(width);
    var b := IntToString(height);
    var c := IntToString(maxval);
    assert SizesThen(width, height, maxval, t) == SizesThen(width, height, maxval, "") + t;
  }

  /** A row's text is a prefix: what follows it is appended unchanged. */
  lemma {:induction false} ValuesThenSplit(row: seq<int>, t: string)
    ensures ValuesThen(row, t) == ValuesThen(row, "") + t
  {
    if row != [] {
      ValuesThenSplit(row[1..], t);
      var a := IntToString(row[0]);
      var v := ValuesThen(row[1..], "");
      ConcatAssoc(" ", v, t);
      ConcatAssoc(a, " " + v, t);
    }
  }

  /** A row extended by one sample: that sample is written last, before t. */
  lemma {:induction false} ValuesThenLast(row: seq<int>, v: int, t: string)
    ensures ValuesThen(row + [v], t) == ValuesThen(row, IntToString(v) + (" " + t))
  {
    if row == [] {
      assert [v][1..] == [];
    } else {
      assert (row + [v])[1..] == row[1..] + [v];
      ValuesThenLast(row[1..], v, t);
    }
  }

  /** Writing one more sample and its space extends a row's text. */
  lemma ValuesThenSnoc(row: seq<int>, v: int)
    ensures ValuesThen(row + [v], "") == ValuesThen(row, "") + IntToString(v) + " "
  {
    ValuesThenLast(row, v, "");
    var a := IntToString(v);
    ValuesThenSplit(row, a + (" " + ""));
    AppendEmpty(" ");
    ConcatAssoc(ValuesThen(row, ""), a, " ");
  }

  /** Rows extended by one row: that row is written last, before t. */
  lemma {:induction false} RowsThenLast(rows: seq<seq<int>>, row: seq<int>, t: string)
    ensures RowsThen(rows + [row], t) == RowsThen(rows, ValuesThen(row, "\n" + t))
  {
    if rows == [] {
      assert [row][1..] == [];
    } else {
      assert (rows + [row])[1..] == rows[1..] + [row];
      RowsThenLast(rows[1..], row, t);
    }
  }

  /** The rows' text is a prefix: what follows it is appended unchanged. */
  lemma {:induction false} RowsThenSplit(rows: seq<seq<int>>, t: string)
    ensures RowsThen(rows, t) == RowsThen(rows, "") + t
  {
    if rows != [] {
      RowsThenSplit(rows[1..], t);
      var r := RowsThen(rows[1..], "");
      ValuesThenSplit(rows[0], "\n" + (r + t));
      ValuesThenSplit(rows[0], "\n" + r);
      var v := ValuesThen(rows[0], "");
      ConcatAssoc("\n", r, t);
      ConcatAssoc(v, "\n" + r, t);
    }
  }

  /** Writing one more row and its newline extends the rows' text. */
  lemma RowsThenSnoc(rows: seq<seq<int>>, row: seq<int>)
    ensures RowsThen(rows + [row], "") == RowsThen(rows, "") + ValuesThen(row, "") + "\n"
  {
    RowsThenLast(rows, row, "");
    var v := ValuesThen(row, "");
    ValuesThenSplit(row, "\n" + "");
    RowsThenSplit(rows, v + "\n");
    AppendEmpty("\n");
    ConcatAssoc(RowsThen(rows, ""), v, "\n");
  }

  /** Text ending in some rows, extended by one more row's line and its newline. */
  lemma RowsThenAppendLine(out: string, header: string, rows: seq<seq<int>>, row: seq<int>, line: string)
    requires out == header + RowsThen(rows, "") && line == ValuesThen(row, "")
    ensures out + line + "\n" == header + RowsThen(rows + [row], "")
  {
    RowsThenSnoc(rows, row);
    var r := RowsThen(rows, "");
    ConcatAssoc(header, r, line);
    ConcatAssoc(header, r + line, "\n");
  }

  /** A header announcing more than WORLDSIZE rows or columns is refused whatever follows. */
  lemma DecodeOversized(width: int, height: int, maxval: int, t: string)
    requires width > WORLDSIZE || height > WORLDSIZE
    requires maxval >= 0
    ensures Decode(HeaderThen(width, height, maxval, t)) == Oversized(width, height)
  {
    DecodeHeader(width, height, maxval, t);
  }
}
