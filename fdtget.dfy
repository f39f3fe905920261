/**
 * The fdtget tool of scripts/dtc-aosp/fdtget.c: decoding property values
 * into cells or strings, listing properties and subnodes, and the
 * argument loop that looks up node/property pairs.
 *
 * The device tree blob is abstracted: a node path either resolves to a
 * node or not, and a node carries its properties (each value with the
 * printability verdict of util_is_printable_string, whose util.c is not
 * part of this model), the names met by the property iterator and the
 * tag stream that starts at the node. libfdt is not part of this model.
 * Standard output is a sequence of items, the messages list_subnodes
 * prints when it gives up included; messages on standard error are not
 * modelled.
 */
module FdtGet {
  import opened Wrappers

  newtype byte = x: int | 0 <= x < 0x100

  /** libfdt's FDT_ERR_NOTFOUND. */
  const FDT_ERR_NOTFOUND: int := 1
  const MAX_LEVEL: int := 32

  /** What fdtget writes to standard output. */
  datatype Out =
    | Space                       // printf(" ")
    | Num(fmt: char, value: int)  // printf("%<fmt>", value)
    | Str(s: seq<byte>)           // printf("%s", s)
    | Line(text: string)          // puts(text)
    | NewLine                     // printf("\n")

  datatype Mode = ModeShowValue | ModeListProps | ModeListSubnodes

  /** struct display_info; type '\0' stands for "no type given" and size
    * -1 for "guess from the length". */
  datatype DisplayInfo = DisplayInfo(dtype: char, size: int, mode: Mode, defaultVal: Option<string>)

  predicate SizeOk(size: int) { size == -1 || size == 1 || size == 2 || size == 4 }

  // ---------------------------------------------------------------
  // Cells
  // ---------------------------------------------------------------

  /** The big-endian 32-bit value at the start of p (fdt32_ld). */
  function Be32(p: seq<byte>): (r: int)
    requires |p| >= 4
    ensures 0 <= r < U32
  {
    ((p[0] as int * 0x100 + p[1] as int) * 0x100 + p[2] as int) * 0x100 + p[3] as int
  }

  /** One cell of show_cell_list: the 4-byte value stored into an int
    * (two's complement), the 2-byte value (p0 << 8) | p1, or p0. */
  function CellValue(p: seq<byte>, size: int): (r: int)
    requires size == 1 || size == 2 || size == 4
    requires |p| >= size
    ensures size == 4 ==> -0x8000_0000 <= r < 0x8000_0000
    ensures size == 2 ==> 0 <= r < U16
    ensures size == 1 ==> r == p[0] as int
  {
    if size == 4 then ToS32(Be32(p))
    else if size == 2 then p[0] as int * 0x100 + p[1] as int
    else p[0] as int
  }

  /** The cell values of data, cut into cells of the given size. */
  function Cells(data: seq<byte>, size: int): seq<int>
    requires size == 1 || size == 2 || size == 4
    requires Whole(|data|, size)
    decreases |data|
  {
    if |data| == 0 then [] else [CellValue(data, size)] + Cells(data[size..], size)
  }

  /** x bytes make a whole number of cells of the given size. */
  predicate Whole(x: int, size: int)
  {
    if size == 4 then x % 4 == 0 else if size == 2 then x % 2 == 0 else true
  }

  lemma WholeIsMod(x: int, size: int)
    requires size == 1 || size == 2 || size == 4
    ensures Whole(x, size) <==> x % size == 0
  {
  }

  /** The values a cell of the given size can hold. */
  predicate CellRange(v: int, size: int)
  {
    if size == 4 then -0x8000_0000 <= v < 0x8000_0000
    else if size == 2 then 0 <= v < U16
    else 0 <= v < U8
  }

  /** Writing one value as a big-endian cell, the inverse of CellValue. */
  function EncodeCell(v: int, size: int): (r: seq<byte>)
    requires size == 1 || size == 2 || size == 4
    requires CellRange(v, size)
    ensures |r| == size
  {
    if size == 4 then
      var u := if v < 0 then v + U32 else v;
      var u1 := u / 0x100;
      var u2 := u1 / 0x100;
      [(u2 / 0x100) as byte, (u2 % 0x100) as byte, (u1 % 0x100) as byte, (u % 0x100) as byte]
    else if size == 2 then [(v / 0x100) as byte, (v % 0x100) as byte]
    else [v as byte]
  }

  function EncodeCells(vals: seq<int>, size: int): (r: seq<byte>)
    requires size == 1 || size == 2 || size == 4
    requires forall i :: 0 <= i < |vals| ==> CellRange(vals[i], size)
    ensures |r| == size * |vals|
  {
    if |vals| == 0 then [] else EncodeCell(vals[0], size) + EncodeCells(vals[1..], size)
  }

  lemma CellRoundTrip(v: int, size: int, rest: seq<byte>)
    requires size == 1 || size == 2 || size == 4
    requires CellRange(v, size)
    ensures CellValue(EncodeCell(v, size) + rest, size) == v
  {
    var p := EncodeCell(v, size) + rest;
    if size == 4 {
      var u := if v < 0 then v + U32 else v;
      var u1 := u / 0x100;
      var u2 := u1 / 0x100;
      assert p[0] as int * 0x100 + p[1] as int == u2;
      assert u2 * 0x100 + p[2] as int == u1;
      assert u1 * 0x100 + p[3] as int == u;
      assert Be32(p) == u;
    }
  }

  /** Decoding the big-endian image of a list of cells gives the list back. */
  lemma {:induction false} CellsRoundTrip(vals: seq<int>, size: int)
    requires size == 1 || size == 2 || size == 4
    requires forall i :: 0 <= i < |vals| ==> CellRange(vals[i], size)
    ensures Cells(EncodeCells(vals, size), size) == vals
  {
    if |vals| > 0 {
      var e := EncodeCells(vals, size);
      var tail := EncodeCells(vals[1..], size);
      assert e == EncodeCell(vals[0], size) + tail;
      assert e[size..] == tail;
      CellRoundTrip(vals[0], size, tail);
      CellsRoundTrip(vals[1..], size);
    }
  }

  /** The loop of show_cell_list takes the cells one by one. */
  lemma CellsNext(data: seq<byte>, i: int, size: int, done: seq<int>, all: seq<int>)
    requires size == 1 || size == 2 || size == 4
    requires Whole(|data|, size)
    requires 0 <= i < |data| && Whole(|data| - i, size)
    requires all == done + Cells(data[i..], size)
    ensures i + size <= |data| && Whole(|data| - (i + size), size)
    ensures all == (done + [CellValue(data[i..], size)]) + Cells(data[i + size..], size)
  {
    CellStep(|data| - i, size);
    assert data[i..][size..] == data[i + size..];
    var rest := Cells(data[i + size..], size);
    assert Cells(data[i..], size) == [CellValue(data[i..], size)] + rest;
    AppendAssoc(done, [CellValue(data[i..], size)], rest);
  }

  lemma AppendAssoc<T>(a: seq<T>, b: seq<T>, c: seq<T>)
    ensures a + (b + c) == (a + b) + c
  {
  }

  /** Printing one more cell. */
  lemma CellItemsSnoc(fmt: char, done: seq<int>, v: int)
    ensures |done| == 0 ==> CellItems(fmt, done + [v]) == [Num(fmt, v)]
    ensures |done| > 0 ==> CellItems(fmt, done + [v]) == CellItems(fmt, done) + [Space, Num(fmt, v)]
  {
    var d := done + [v];
    if |done| == 0 {
      assert d == [v];
    } else {
      assert d[..|done|] == done && d[|done|] == v;
    }
  }

  /** Another whole cell follows while bytes remain. */
  lemma CellStep(x: int, size: int)
    requires size == 1 || size == 2 || size == 4
    requires x > 0 && Whole(x, size)
    ensures x >= size && Whole(x - size, size)
  {
    if size == 2 {
      assert x % 2 == 0;
    } else if size == 4 {
      assert x % 4 == 0;
    }
  }

  /** One turn of the loop of show_cell_list. */
  lemma CellLoopStep(data: seq<byte>, i: int, size: int, done: seq<int>, all: seq<int>, fmt: char, out: seq<Out>)
    requires size == 1 || size == 2 || size == 4
    requires Whole(|data|, size)
    requires 0 <= i < |data| && Whole(|data| - i, size)
    requires all == done + Cells(data[i..], size)
    requires out == CellItems(fmt, done)
    requires i == 0 <==> |done| == 0
    ensures i + size <= |data| && Whole(|data| - (i + size), size)
    ensures all == (done + [CellValue(data[i..], size)]) + Cells(data[i + size..], size)
    ensures i != 0 ==> out + [Space, Num(fmt, CellValue(data[i..], size))] == CellItems(fmt, done + [CellValue(data[i..], size)])
    ensures i == 0 ==> [Num(fmt, CellValue(data[i..], size))] == CellItems(fmt, done + [CellValue(data[i..], size)])
  {
    CellsNext(data, i, size, done, all);
    CellItemsSnoc(fmt, done, CellValue(data[i..], size));
  }

  /** One Num item per cell, separated by single spaces. */
  function CellItems(fmt: char, vals: seq<int>): (r: seq<Out>)
    ensures |vals| == 0 ==> r == []
    ensures |vals| > 0 ==> |r| == 2 * |vals| - 1
    decreases |vals|
  {
    if |vals| == 0 then []
    else if |vals| == 1 then [Num(fmt, vals[0])]
    else CellItems(fmt, vals[..|vals| - 1]) + [Space, Num(fmt, vals[|vals| - 1])]
  }

  /** The printf conversion: the given type, or 'd' when none was given. */
  function Fmt(dtype: char): (r: char)
    ensures dtype != '\0' ==> r == dtype
    ensures dtype == '\0' ==> r == 'd'
  {
    if dtype != '\0' then dtype else 'd'
  }

  /** show_cell_list: the cells of data in the display format, separated
    * by spaces; always 0. */
  method ShowCellList(disp: DisplayInfo, data: seq<byte>, size: int) returns (ret: int, out: seq<Out>)
    requires size == 1 || size == 2 || size == 4
    requires Whole(|data|, size)
    ensures ret == 0
    ensures out == CellItems(Fmt(disp.dtype), Cells(data, size))
  {
    ret := 0;
    var fmt := if disp.dtype != '\0' then disp.dtype else 'd';
    out := [];
    ghost var all := Cells(data, size);
    ghost var done: seq<int> := [];
    var i := 0;
    assert data[0..] == data;
    while i < |data|
      invariant 0 <= i <= |data| && Whole(|data| - i, size)
      invariant all == done + Cells(data[i..], size)
      invariant out == CellItems(fmt, done)
      invariant i == 0 <==> |done| == 0
      decreases |data| - i
    {
      CellLoopStep(data, i, size, done, all, fmt, out);
      var value := CellValue(data[i..], size);
      if i != 0 {
        out := out + [Space, Num(fmt, value)];
      } else {
        out := [Num(fmt, value)];
      }
      done := done + [value];
      i := i + size;
    }
    assert data[i..] == [];
    assert done + [] == done;
  }

  // ---------------------------------------------------------------
  // Strings
  // ---------------------------------------------------------------

  predicate NulFree(s: seq<byte>) { forall k :: 0 <= k < |s| ==> s[k] != 0 }

  /** NUL-terminated data: non-empty with a NUL last byte. */
  predicate Terminated(data: seq<byte>) { |data| > 0 && data[|data| - 1] == 0 }

  /** strlen at offset s: the distance to the next NUL. */
  function StrLen(data: seq<byte>, s: nat): (r: nat)
    requires s < |data| && Terminated(data)
    ensures s + r < |data|
    decreases |data| - s
  {
    if data[s] == 0 then 0 else 1 + StrLen(data, s + 1)
  }

  lemma {:induction false} StrLenNul(data: seq<byte>, s: nat)
    requires s < |data| && Terminated(data)
    ensures data[s + StrLen(data, s)] == 0
    decreases |data| - s
  {
    if data[s] != 0 {
      StrLenNul(data, s + 1);
    }
  }

  /** The NUL-terminated strings of data from offset s on. */
  function SplitStrings(data: seq<byte>, s: nat): (r: seq<seq<byte>>)
    requires s <= |data| && Terminated(data)
    decreases |data| - s
  {
    if s == |data| then []
    else [data[s .. s + StrLen(data, s)]] + SplitStrings(data, s + StrLen(data, s) + 1)
  }

  /** The inverse: every string followed by its NUL. */
  function JoinStrings(ps: seq<seq<byte>>): (r: seq<byte>)
  {
    if |ps| == 0 then [] else ps[0] + [0] + JoinStrings(ps[1..])
  }

  lemma JoinTerminated(ps: seq<seq<byte>>)
    requires |ps| > 0
    ensures Terminated(JoinStrings(ps))
  {
    if |ps| > 1 {
      JoinTerminated(ps[1..]);
    }
  }

  lemma JoinCons(p: seq<byte>, rest: seq<seq<byte>>)
    ensures JoinStrings([p] + rest) == p + [0] + JoinStrings(rest)
  {
    assert ([p] + rest)[1..] == rest;
  }

  /** strlen stops at the NUL behind a NUL-free string. */
  lemma {:induction false} StrLenOf(data: seq<byte>, s: nat, n: nat)
    requires s + n < |data| && Terminated(data)
    requires forall k :: s <= k < s + n ==> data[k] != 0
    requires data[s + n] == 0
    ensures StrLen(data, s) == n
    decreases n
  {
    if n > 0 {
      StrLenOf(data, s + 1, n - 1);
    }
  }

  /** strlen over a NUL-free string followed by its NUL. */
  lemma StrLenJoin(pre: seq<byte>, p: seq<byte>, tail: seq<byte>)
    requires NulFree(p) && Terminated(pre + p + [0] + tail)
    ensures StrLen(pre + p + [0] + tail, |pre|) == |p|
    ensures (pre + p + [0] + tail)[|pre| .. |pre| + |p|] == p
  {
    var d := pre + p + [0] + tail;
    assert forall k :: |pre| <= k < |pre| + |p| ==> d[k] == p[k - |pre|];
    StrLenOf(d, |pre|, |p|);
  }

  /** Splitting the joined strings behind any prefix gives them back. */
  lemma {:induction false} SplitJoinAt(pre: seq<byte>, ps: seq<seq<byte>>)
    requires |ps| > 0
    requires forall k :: 0 <= k < |ps| ==> NulFree(ps[k])
    ensures Terminated(pre + JoinStrings(ps))
    ensures SplitStrings(pre + JoinStrings(ps), |pre|) == ps
    decreases |ps|
  {
    var p := ps[0];
    var tail := JoinStrings(ps[1..]);
    var pre' := pre + p + [0];
    var d := pre + JoinStrings(ps);
    assert d == pre + p + [0] + tail by {
      JoinCons(p, ps[1..]);
      assert [p] + ps[1..] == ps;
    }
    assert Terminated(d) by {
      JoinTerminated(ps);
    }
    StrLenJoin(pre, p, tail);
    assert SplitStrings(d, |pre|) == [p] + SplitStrings(d, |pre'|);
    if |ps| == 1 {
      assert SplitStrings(d, |pre'|) == [];
    } else {
      assert d == pre' + tail;
      SplitJoinAt(pre', ps[1..]);
      assert ps == [p] + ps[1..];
    }
  }

  /** Splitting the joined strings gives them back. */
  lemma SplitJoin(ps: seq<seq<byte>>)
    requires |ps| > 0
    requires forall k :: 0 <= k < |ps| ==> NulFree(ps[k])
    ensures Terminated(JoinStrings(ps))
    ensures SplitStrings(JoinStrings(ps), 0) == ps
  {
    SplitJoinAt([], ps);
    assert [] + JoinStrings(ps) == JoinStrings(ps);
  }

  /** Joining the split strings of NUL-terminated data gives it back. */
  lemma {:induction false} JoinSplit(data: seq<byte>, s: nat)
    requires s <= |data| && Terminated(data)
    ensures JoinStrings(SplitStrings(data, s)) == data[s..]
    decreases |data| - s
  {
    if s < |data| {
      var n := StrLen(data, s);
      var rest := SplitStrings(data, s + n + 1);
      calc {
        JoinStrings(SplitStrings(data, s));
        JoinStrings([data[s .. s + n]] + rest);
        { JoinCons(data[s .. s + n], rest); }
        data[s .. s + n] + [0] + JoinStrings(rest);
        { JoinSplit(data, s + n + 1); }
        data[s .. s + n] + [0] + data[s + n + 1..];
        { StrLenNul(data, s); }
        data[s..];
      }
    }
  }

  /** The strings as printed: Str items separated by single spaces. */
  function StringItems(ps: seq<seq<byte>>): (r: seq<Out>)
    ensures |ps| == 0 ==> r == []
    ensures |ps| > 0 ==> |r| == 2 * |ps| - 1
    decreases |ps|
  {
    if |ps| == 0 then []
    else if |ps| == 1 then [Str(ps[0])]
    else StringItems(ps[..|ps| - 1]) + [Space, Str(ps[|ps| - 1])]
  }

  /** The loop of show_data takes the strings one by one. */
  lemma StringsNext(data: seq<byte>, s: nat, done: seq<seq<byte>>, all: seq<seq<byte>>)
    requires Terminated(data) && s < |data|
    requires all == done + SplitStrings(data, s)
    ensures all == (done + [data[s .. s + StrLen(data, s)]]) + SplitStrings(data, s + StrLen(data, s) + 1)
  {
    AppendAssoc(done, [data[s .. s + StrLen(data, s)]], SplitStrings(data, s + StrLen(data, s) + 1));
  }

  /** Printing one more string. */
  lemma StringItemsSnoc(done: seq<seq<byte>>, p: seq<byte>)
    ensures |done| == 0 ==> StringItems(done + [p]) == [Str(p)]
    ensures |done| > 0 ==> StringItems(done + [p]) == StringItems(done) + [Space, Str(p)]
  {
    var d := done + [p];
    if |done| == 0 {
      assert d == [p];
    } else {
      assert d[..|done|] == done && d[|done|] == p;
    }
  }

  /** One round of the string loop: the next string moves from the
    * unprinted rest to the printed part. */
  lemma ShowStringsStep(done: seq<seq<byte>>, rest: seq<seq<byte>>, out: seq<Out>, all: seq<seq<byte>>)
    requires |rest| > 0 && all == done + rest && out == StringItems(done)
    ensures all == (done + [rest[0]]) + rest[1..]
    ensures |done| == 0 ==> StringItems(done + [rest[0]]) == [Str(rest[0])]
    ensures |done| > 0 ==> StringItems(done + [rest[0]]) == out + [Space, Str(rest[0])]
  {
    assert rest == [rest[0]] + rest[1..];
    AppendAssoc(done, [rest[0]], rest[1..]);
    StringItemsSnoc(done, rest[0]);
  }

  /** The string loop of show_data: print each NUL-terminated string,
    * a space before every one but the first. */
  method ShowStrings(data: seq<byte>) returns (out: seq<Out>)
    requires Terminated(data)
    ensures out == StringItems(SplitStrings(data, 0))
  {
    out := [];
    ghost var all := SplitStrings(data, 0);
    ghost var done: seq<seq<byte>> := [];
    ghost var rest := all;
    var s := 0;
    while s < |data|
      invariant 0 <= s <= |data|
      invariant rest == SplitStrings(data, s)
      invariant all == done + rest
      invariant out == StringItems(done)
      invariant s == 0 <==> |done| == 0
      decreases |data| - s
    {
      var n := StrLen(data, s);
      var piece := data[s .. s + n];
      assert rest == [piece] + SplitStrings(data, s + n + 1);
      ShowStringsStep(done, rest, out, all);
      if s != 0 {
        out := out + [Space, Str(piece)];
      } else {
        out := [Str(piece)];
      }
      done, rest := done + [piece], rest[1..];
      s := s + n + 1;
    }
    assert done + [] == done;
  }

  // ---------------------------------------------------------------
  // show_data
  // ---------------------------------------------------------------

  /** The cell size show_data uses: the requested one when it divides
    * the length, 4 or 1 by the length when none was requested, and
    * None (an error) otherwise. */
  function CellSize(size: int, len: int): (r: Option<int>)
    requires SizeOk(size) && len >= 0
    ensures r.None? <==> size != -1 && len % size != 0
    ensures r.Some? ==> (r.value == 1 || r.value == 2 || r.value == 4) && len % r.value == 0 && Whole(len, r.value)
    ensures r.Some? && size != -1 ==> r.value == size
    ensures size == -1 ==> r == Some(if len % 4 == 0 then 4 else 1)
  {
    if size == -1 then Some(if len % 4 == 0 then 4 else 1)
    else if len % size != 0 then None
    else WholeIsMod(len, size); Some(size)
  }

  /** Whether show_data takes the string path. */
  predicate IsString(disp: DisplayInfo, printable: bool)
  {
    disp.dtype == 's' || (disp.dtype == '\0' && printable)
  }

  /** What show_data returns and prints for one property value. */
  function DataOutput(disp: DisplayInfo, data: seq<byte>, printable: bool): (r: (int, seq<Out>))
    requires SizeOk(disp.size)
    ensures |data| == 0 ==> r == (0, [])
    ensures r.0 == 0 || r.0 == -1
    ensures r.0 == -1 ==> r.1 == []
    ensures |data| > 0 && IsString(disp, printable) ==>
              (r.0 == -1 <==> data[|data| - 1] != 0)
    ensures |data| > 0 && !IsString(disp, printable) ==>
              (r.0 == -1 <==> disp.size != -1 && |data| % disp.size != 0)
  {
    if |data| == 0 then (0, [])
    else if IsString(disp, printable) then
      if data[|data| - 1] != 0 then (-1, []) else (0, StringItems(SplitStrings(data, 0)))
    else
      match CellSize(disp.size, |data|)
      case None => (-1, [])
      case Some(size) => (0, CellItems(Fmt(disp.dtype), Cells(data, size)))
  }

  /** A well-formed list of strings is shown as those strings. */
  lemma ShowsJoinedStrings(disp: DisplayInfo, ps: seq<seq<byte>>, printable: bool)
    requires SizeOk(disp.size) && IsString(disp, printable)
    requires |ps| > 0 && forall k :: 0 <= k < |ps| ==> NulFree(ps[k])
    ensures DataOutput(disp, JoinStrings(ps), printable) == (0, StringItems(ps))
  {
    SplitJoin(ps);
  }

  /** A list of cells of the requested size is shown as those values. */
  lemma ShowsEncodedCells(disp: DisplayInfo, vals: seq<int>, printable: bool)
    requires (disp.size == 1 || disp.size == 2 || disp.size == 4) && !IsString(disp, printable)
    requires forall i :: 0 <= i < |vals| ==> CellRange(vals[i], disp.size)
    ensures DataOutput(disp, EncodeCells(vals, disp.size), printable).1
            == CellItems(Fmt(disp.dtype), vals)
  {
    var e := EncodeCells(vals, disp.size);
    WholeCells(|vals|, disp.size);
    assert CellSize(disp.size, |e|) == Some(disp.size);
    CellsRoundTrip(vals, disp.size);
  }

  /** n cells of a size fill a whole number of cells. */
  lemma WholeCells(n: nat, size: int)
    requires size == 1 || size == 2 || size == 4
    ensures Whole(size * n, size)
  {
    if size == 2 {
      assert 2 * n == n + n;
    } else if size == 4 {
      assert 4 * n == n + n + n + n;
    }
  }

  /** show_data. */
  method ShowData(disp: DisplayInfo, data: seq<byte>, printable: bool) returns (ret: int, out: seq<Out>)
    requires SizeOk(disp.size)
    ensures (ret, out) == DataOutput(disp, data, printable)
  {
    if |data| == 0 {
      return 0, [];
    }
    if disp.dtype == 's' || (disp.dtype == '\0' && printable) {
      if data[|data| - 1] != 0 {
        return -1, [];
      }
      out := ShowStrings(data);
      return 0, out;
    }
    var size := disp.size;
    if size == -1 {
      size := if |data| % 4 == 0 then 4 else 1;
    } else if |data| % size != 0 {
      return -1, [];
    }
    ret, out := ShowCellList(disp, data, size);
  }

  // ---------------------------------------------------------------
  // Listing properties and subnodes
  // ---------------------------------------------------------------

  /** The names a property walk prints: the ones the walk could read. */
  function PresentNames(names: seq<Option<string>>): (r: seq<Out>)
    ensures |r| <= |names|
    ensures forall k :: 0 <= k < |r| ==> r[k].Line?
  {
    if |names| == 0 then []
    else
      var last := names[|names| - 1];
      PresentNames(names[..|names| - 1]) + (if last.Some? then [Line(last.value)] else [])
  }

  /** list_properties: one line per property name; the walk ends with a
    * negative error, and only "not found" (the normal end) gives 0. */
  method ListProperties(names: seq<Option<string>>, endErr: int) returns (ret: int, out: seq<Out>)
    requires endErr < 0
    ensures ret == (if endErr == -FDT_ERR_NOTFOUND then 0 else endErr)
    ensures out == PresentNames(names)
  {
    out := [];
    var prop := 0;
    while prop < |names|
      invariant 0 <= prop <= |names|
      invariant out == PresentNames(names[..prop])
    {
      assert names[..prop + 1][..prop] == names[..prop];
      if names[prop].Some? {
        out := out + [Line(names[prop].value)];
      }
      prop := prop + 1;
    }
    assert names[..prop] == names;
    ret := if endErr == -FDT_ERR_NOTFOUND then 0 else endErr;
  }

  /** A structure-block tag as fdt_next_tag reports it. Other covers
    * every other tag value, FDT_NOP included. */
  datatype Tag = BeginNode(name: string) | EndNode | Prop | End | Other(code: nat)

  /** How a tag changes the nesting level. */
  function Delta(t: Tag): int
  {
    match t
    case BeginNode(_) => 1
    case EndNode => -1
    case _ => 0
  }

  /** The nesting level a run of tags adds up to. */
  function Depth(ts: seq<Tag>): int
  {
    if |ts| == 0 then 0 else Delta(ts[0]) + Depth(ts[1..])
  }

  /** A node name as printed: the nameless root is "/". */
  function DisplayName(name: string): (r: string)
    ensures |r| > 0
    ensures name != "" ==> r == name
  {
    if name == "" then "/" else name
  }

  /** A status and output with more output before it. */
  function Prefixed<T>(before: seq<T>, r: (int, seq<T>)): (int, seq<T>)
  {
    (r.0, before + r.1)
  }

  lemma PrefixedConcat<T>(a: seq<T>, b: seq<T>, r: (int, seq<T>))
    ensures Prefixed(a, Prefixed(b, r)) == Prefixed(a + b, r)
  {
    assert a + (b + r.1) == (a + b) + r.1;
  }

  /** An upper-case hexadecimal digit, as "%X" prints it. */
  function UpperHexDigit(d: nat): (c: char)
    requires d < 16
    ensures IsUpperHexDigit(c)
  {
    if d < 10 then (48 + d) as char else (55 + d) as char
  }

  predicate IsUpperHexDigit(c: char) {
    '0' <= c <= '9' || 'A' <= c <= 'F'
  }

  /** The value of a string of upper-case hexadecimal digits. */
  function UpperHexValue(s: string): nat
    requires forall k :: 0 <= k < |s| ==> IsUpperHexDigit(s[k])
  {
    if |s| == 0 then 0
    else 16 * UpperHexValue(s[..|s| - 1]) + UpperHexDigitValue(s[|s| - 1])
  }

  function UpperHexDigitValue(c: char): (v: nat)
    requires IsUpperHexDigit(c)
    ensures v < 16
  {
    if c <= '9' then c as int - 48 else c as int - 55
  }

  function Pow16(w: nat): (r: nat)
    ensures r > 0
  {
    if w == 0 then 1 else 16 * Pow16(w - 1)
  }

  /** "%0<w>X": the low w hexadecimal digits of x, zero-padded. */
  function UpperHex(x: nat, w: nat): (r: string)
    ensures |r| == w && forall k :: 0 <= k < |r| ==> IsUpperHexDigit(r[k])
  {
    if w == 0 then [] else UpperHex(x / 16, w - 1) + [UpperHexDigit(x % 16)]
  }

  /** Taking the lowest hexadecimal digit off: x mod 16p in terms of
    * x / 16 mod p. */
  lemma ModSixteen(x: nat, p: nat)
    requires p > 0
    ensures x % (16 * p) == 16 * ((x / 16) % p) + x % 16
  {
    var q, r0 := x / 16, x % 16;
    var a, b := q / p, q % p;
    assert q == a * p + b;
    assert x == 16 * q + r0;
    assert x == a * (16 * p) + (16 * b + r0);
    DivModUnique(x, 16 * p, a, 16 * b + r0);
  }

  /** The w digits written denote x modulo 16^w. */
  lemma {:induction false} UpperHexValueMod(x: nat, w: nat)
    ensures UpperHexValue(UpperHex(x, w)) == x % Pow16(w)
  {
    if w == 0 {
      DivModUnique(x, 1, x, 0);
    } else {
      var d := UpperHex(x, w);
      assert d[..|d| - 1] == UpperHex(x / 16, w - 1);
      UpperHexValueMod(x / 16, w - 1);
      ModSixteen(x, Pow16(w - 1));
    }
  }

  /** The line list_subnodes prints for a tag it does not know. */
  function UnknownTagText(code: nat): string
  {
    "Unknown tag 0x" + UpperHex(code, 8)
  }

  /** "%08X" of a u32 tag: eight digits that read back as the tag. */
  lemma UnknownTagShows(code: nat)
    requires IsU32(code)
    ensures |UnknownTagText(code)| == 22 && UnknownTagText(code)[..14] == "Unknown tag 0x"
    ensures UpperHexValue(UnknownTagText(code)[14..]) == code
  {
    assert UnknownTagText(code)[14..] == UpperHex(code, 8);
    UpperHexValueMod(code, 8);
    assert Pow16(8) == U32;
    DivModUnique(code, U32, 0, code);
  }

  const TOO_DEEP: string := "Nested too deep, aborting."

  /** A line list_subnodes prints: a subnode's name, or the note it
    * prints when it gives up. */
  datatype Listed = Name(name: string) | Note(text: string)

  function ListedText(l: Listed): string
  {
    match l
    case Name(n) => n
    case Note(t) => t
  }

  /** The walk of list_subnodes from tag i at the given level: the
    * status and the lines printed. */
  function Walk(tags: seq<Tag>, i: nat, level: nat): (r: (int, seq<Listed>))
    ensures r.0 == 0 || r.0 == 1
    decreases |tags| - i
  {
    if i >= |tags| then (1, [])
    else match tags[i]
      case BeginNode(name) =>
        var here := if level == 1 then [Name(DisplayName(name))] else [];
        if level + 1 >= MAX_LEVEL then (1, here + [Note(TOO_DEEP)])
        else var rest := Walk(tags, i + 1, level + 1); (rest.0, here + rest.1)
      case EndNode =>
        if level <= 1 then (0, []) else Walk(tags, i + 1, level - 1)
      case Prop => Walk(tags, i + 1, level)
      case End => (1, [])
      case Other(code) => (1, if level <= 1 then [Note(UnknownTagText(code))] else [])
  }

  /** x is the printed name of a node that opens one level below the
    * level of the walk at tag i. */
  ghost predicate LevelOneName(tags: seq<Tag>, i: nat, level: nat, x: string)
  {
    exists k :: i <= k < |tags| && tags[k].BeginNode? && x == DisplayName(tags[k].name)
                && level + Depth(tags[i..k]) == 1
  }

  /** One tag further: a name listed from tag i + 1 at the level after
    * tag i is listed from tag i. */
  lemma LevelOneNameBack(tags: seq<Tag>, i: nat, level: nat, x: string)
    requires i < |tags| && level + Delta(tags[i]) >= 0
    requires LevelOneName(tags, i + 1, level + Delta(tags[i]), x)
    ensures LevelOneName(tags, i, level, x)
  {
    var k :| i + 1 <= k < |tags| && tags[k].BeginNode? && x == DisplayName(tags[k].name)
             && level + Delta(tags[i]) + Depth(tags[i + 1..k]) == 1;
    assert tags[i..k][1..] == tags[i + 1..k];
  }

  /** Every name printed belongs to a node one level below the start. */
  lemma {:induction false} WalkListsLevelOne(tags: seq<Tag>, i: nat, level: nat)
    ensures forall m :: 0 <= m < |Walk(tags, i, level).1| && Walk(tags, i, level).1[m].Name? ==>
              LevelOneName(tags, i, level, Walk(tags, i, level).1[m].name)
    decreases |tags| - i
  {
    var w := Walk(tags, i, level).1;
    if i < |tags| && !tags[i].End? && !tags[i].Other? {
      var level' := level + Delta(tags[i]);
      var deep := tags[i].BeginNode? && level + 1 >= MAX_LEVEL;
      if level' >= 0 && !(tags[i].EndNode? && level <= 1) && !deep {
        WalkListsLevelOne(tags, i + 1, level');
      }
      forall m | 0 <= m < |w| && w[m].Name?
        ensures LevelOneName(tags, i, level, w[m].name)
      {
        if tags[i].BeginNode? && level == 1 && m == 0 {
          assert tags[i..i] == [];
        } else {
          var here := if tags[i].BeginNode? && level == 1 then 1 else 0;
          assert w[m] == Walk(tags, i + 1, level').1[m - here];
          LevelOneNameBack(tags, i, level, w[m].name);
        }
      }
    }
  }

  /** A note is only ever the last line, and a walk that reaches the
    * node's end prints no note. */
  lemma {:induction false} WalkNoteLast(tags: seq<Tag>, i: nat, level: nat)
    ensures forall m :: 0 <= m < |Walk(tags, i, level).1| - 1 ==> Walk(tags, i, level).1[m].Name?
    ensures Walk(tags, i, level).0 == 0 ==> forall m :: 0 <= m < |Walk(tags, i, level).1| ==> Walk(tags, i, level).1[m].Name?
    decreases |tags| - i
  {
    if i < |tags| {
      match tags[i]
      case BeginNode(_) =>
        if level + 1 < MAX_LEVEL {
          WalkNoteLast(tags, i + 1, level + 1);
        }
      case EndNode =>
        if level > 1 {
          WalkNoteLast(tags, i + 1, level - 1);
        }
      case Prop =>
        WalkNoteLast(tags, i + 1, level);
      case End =>
      case Other(_) =>
    }
  }

  /** Nodes nested MAX_LEVEL deep stop the walk with status 1, and the
    * last line printed is the too-deep note. */
  lemma {:induction false} WalkTooDeep(tags: seq<Tag>, i: nat, level: nat)
    requires level < MAX_LEVEL
    requires i + MAX_LEVEL - level <= |tags|
    requires forall k :: i <= k < i + MAX_LEVEL - level ==> tags[k].BeginNode?
    ensures Walk(tags, i, level).0 == 1
    ensures |Walk(tags, i, level).1| > 0 && Walk(tags, i, level).1[|Walk(tags, i, level).1| - 1] == Note(TOO_DEEP)
    decreases MAX_LEVEL - level
  {
    if level + 1 < MAX_LEVEL {
      WalkTooDeep(tags, i + 1, level + 1);
    }
  }

  /** An unknown tag met after properties of the node itself ends the
    * walk with status 1, printing only the unknown-tag line. */
  lemma {:induction false} WalkUnknownTag(tags: seq<Tag>, i: nat, j: nat, level: nat, code: nat)
    requires i <= j < |tags| && tags[j] == Other(code) && level <= 1
    requires forall k :: i <= k < j ==> tags[k] == Prop
    ensures Walk(tags, i, level) == (1, [Note(UnknownTagText(code))])
    decreases j - i
  {
    if i < j {
      WalkUnknownTag(tags, i + 1, j, level, code);
    }
  }

  /** list_subnodes: walks the tags from the node, printing the names
    * of its direct subnodes; 0 when the node's end is reached, 1 at the
    * end of the structure, at an unknown tag or MAX_LEVEL deep, the last
    * two with their note on standard output. */
  method ListSubnodes(tags: seq<Tag>) returns (ret: int, out: seq<Listed>)
    ensures (ret, out) == Walk(tags, 0, 0)
  {
    var level := 0;
    var node := 0;
    out := [];
    assert [] + Walk(tags, 0, 0).1 == Walk(tags, 0, 0).1;
    while level >= 0
      invariant 0 <= node
      invariant level >= 0 ==> Walk(tags, 0, 0) == Prefixed(out, Walk(tags, node, level))
      invariant level < 0 ==> Walk(tags, 0, 0) == (0, out)
      decreases |tags| - node, if level >= 0 then 1 else 0
    {
      if node >= |tags| {
        assert out + [] == out;
        return 1, out;
      }
      match tags[node] {
        case BeginNode(name) =>
          ghost var here := if level == 1 then [Name(DisplayName(name))] else [];
          ghost var out0 := out;
          if level == 1 {
            out := out + [Name(DisplayName(name))];
          }
          assert out == out0 + here;
          level := level + 1;
          if level >= MAX_LEVEL {
            assert Walk(tags, node, level - 1) == (1, here + [Note(TOO_DEEP)]);
            out := out + [Note(TOO_DEEP)];
            assert out == out0 + (here + [Note(TOO_DEEP)]);
            return 1, out;
          }
          assert Walk(tags, node, level - 1) == Prefixed(here, Walk(tags, node + 1, level));
          PrefixedConcat(out0, here, Walk(tags, node + 1, level));
        case EndNode =>
          assert level <= 1 ==> Walk(tags, node, level) == (0, []);
          assert level > 1 ==> Walk(tags, node, level) == Walk(tags, node + 1, level - 1);
          level := level - 1;
          if level <= 0 {
            assert out + [] == out;
            level := -1;
          }
        case Prop =>
          assert Walk(tags, node, level) == Walk(tags, node + 1, level);
        case End =>
          assert out + [] == out;
          return 1, out;
        case Other(code) =>
          if level <= 1 {
            out := out + [Note(UnknownTagText(code))];
          } else {
            assert out + [] == out;
          }
          return 1, out;
      }
      node := node + 1;
    }
    ret := 0;
  }

  // ---------------------------------------------------------------
  // do_fdtget and main
  // ---------------------------------------------------------------

  /** A property value and the printability verdict on it. */
  datatype PropValue = PropValue(data: seq<byte>, printable: bool)

  /** What fdtget can learn about one node. */
  datatype Node = Node(props: map<string, PropValue>, propNames: seq<Option<string>>, propEnd: int, tags: seq<Tag>)

  predicate NodeOk(n: Node) { n.propEnd < 0 }

  /** The blob: the nodes the paths resolve to. */
  type Blob = map<string, Node>

  predicate BlobOk(blob: Blob) { forall p :: p in blob ==> NodeOk(blob[p]) }

  function Lines(names: seq<Listed>): (r: seq<Out>)
    ensures |r| == |names|
    ensures forall k :: 0 <= k < |r| ==> r[k] == Line(ListedText(names[k]))
  {
    if |names| == 0 then [] else [Line(ListedText(names[0]))] + Lines(names[1..])
  }

  /** show_data_for_item: status and output for one node, with or without
    * a property name. */
  function ItemOutput(node: Node, disp: DisplayInfo, property: Option<string>): (r: (int, seq<Out>))
    requires NodeOk(node) && SizeOk(disp.size)
    requires disp.mode == ModeShowValue ==> property.Some?
    ensures disp.mode == ModeShowValue && property.value !in node.props ==>
              r == (if disp.defaultVal.Some? then (0, [Line(disp.defaultVal.value)]) else (-1, []))
  {
    match disp.mode
    case ModeListProps =>
      (if node.propEnd == -FDT_ERR_NOTFOUND then 0 else node.propEnd, PresentNames(node.propNames))
    case ModeListSubnodes =>
      var w := Walk(node.tags, 0, 0); (w.0, Lines(w.1))
    case ModeShowValue =>
      if property.value in node.props then
        var v := node.props[property.value];
        var d := DataOutput(disp, v.data, v.printable);
        if d.0 != 0 then (-1, d.1) else (0, d.1 + [NewLine])
      else if disp.defaultVal.Some? then (0, [Line(disp.defaultVal.value)])
      else (-1, [])
  }

  /** The show_data_for_item call. */
  method ShowDataForItem(node: Node, disp: DisplayInfo, property: Option<string>) returns (err: int, out: seq<Out>)
    requires NodeOk(node) && SizeOk(disp.size)
    requires disp.mode == ModeShowValue ==> property.Some?
    ensures (err, out) == ItemOutput(node, disp, property)
  {
    match disp.mode
    case ModeListProps =>
      err, out := ListProperties(node.propNames, node.propEnd);
    case ModeListSubnodes =>
      var names;
      err, names := ListSubnodes(node.tags);
      out := Lines(names);
    case ModeShowValue =>
      if property.value in node.props {
        var v := node.props[property.value];
        var e;
        e, out := ShowData(disp, v.data, v.printable);
        if e != 0 {
          err := -1;
        } else {
          err := 0;
          out := out + [NewLine];
        }
      } else if disp.defaultVal.Some? {
        err, out := 0, [Line(disp.defaultVal.value)];
      } else {
        err, out := -1, [];
      }
  }

  /** The argument groups from index i on: status and output. */
  function RunFrom(blob: Blob, disp: DisplayInfo, args: seq<string>, i: nat, step: int): (r: (int, seq<Out>))
    requires BlobOk(blob) && SizeOk(disp.size)
    requires step == 1 || step == 2
    requires disp.mode == ModeShowValue <==> step == 2
    ensures r.0 == 0 || r.0 == -1
    decreases |args| - i
  {
    if i + step > |args| then (0, [])
    else if args[i] !in blob then
      if disp.defaultVal.Some? then
        var rest := RunFrom(blob, disp, args, i + step, step);
        (rest.0, [Line(disp.defaultVal.value)] + rest.1)
      else (-1, [])
    else
      var item := ItemOutput(blob[args[i]], disp, if step == 1 then None else Some(args[i + 1]));
      if item.0 != 0 then (-1, item.1)
      else var rest := RunFrom(blob, disp, args, i + step, step); (rest.0, item.1 + rest.1)
  }

  /** do_fdtget: -1 when the blob cannot be read; otherwise looks up
    * every group of args_per_step arguments in turn, stopping with -1 at
    * the first that fails. */
  method DoFdtget(disp: DisplayInfo, blob: Option<Blob>, args: seq<string>, step: int) returns (ret: int, out: seq<Out>)
    requires blob.Some? ==> BlobOk(blob.value)
    requires SizeOk(disp.size) && (step == 1 || step == 2)
    requires disp.mode == ModeShowValue <==> step == 2
    ensures blob.None? ==> ret == -1 && out == []
    ensures blob.Some? ==> (ret, out) == RunFrom(blob.value, disp, args, 0, step)
  {
    if blob.None? {
      return -1, [];
    }
    var b := blob.value;
    out := [];
    var i := 0;
    assert [] + RunFrom(b, disp, args, 0, step).1 == RunFrom(b, disp, args, 0, step).1;
    while i + step <= |args|
      invariant 0 <= i
      invariant RunFrom(b, disp, args, 0, step) == Prefixed(out, RunFrom(b, disp, args, i, step))
      decreases |args| - i
    {
      if args[i] !in b {
        if disp.defaultVal.Some? {
          PrefixedConcat(out, [Line(disp.defaultVal.value)], RunFrom(b, disp, args, i + step, step));
          out := out + [Line(disp.defaultVal.value)];
          i := i + step;
          continue;
        } else {
          assert out + [] == out;
          return -1, out;
        }
      }
      var prop := if step == 1 then None else Some(args[i + 1]);
      var err, o := ShowDataForItem(b[args[i]], disp, prop);
      PrefixedConcat(out, o, RunFrom(b, disp, args, i + step, step));
      out := out + o;
      if err != 0 {
        assert out + [] == out;
        return -1, out;
      }
      i := i + step;
    }
    assert out + [] == out;
    ret := 0;
  }

  /** A path that does not resolve is skipped with the default value
    * printed in its place, or ends the run with -1 when there is none. */
  lemma MissingNode(blob: Blob, disp: DisplayInfo, args: seq<string>, i: nat, step: int)
    requires BlobOk(blob) && SizeOk(disp.size) && (step == 1 || step == 2)
    requires disp.mode == ModeShowValue <==> step == 2
    requires i + step <= |args| && args[i] !in blob
    ensures disp.defaultVal.None? ==> RunFrom(blob, disp, args, i, step) == (-1, [])
    ensures disp.defaultVal.Some? ==>
              RunFrom(blob, disp, args, i, step).1 == [Line(disp.defaultVal.value)] + RunFrom(blob, disp, args, i + step, step).1
  {
  }

  /** The run succeeds exactly when every group does. */
  lemma {:induction false} RunSucceedsIffAll(blob: Blob, disp: DisplayInfo, args: seq<string>, i: nat, step: int)
    requires BlobOk(blob) && SizeOk(disp.size) && (step == 1 || step == 2)
    requires disp.mode == ModeShowValue <==> step == 2
    ensures RunFrom(blob, disp, args, i, step).0 == 0 <==>
              forall j :: i <= j && j + step <= |args| && Whole(j - i, step) ==> GroupOk(blob, disp, args, j, step)
    decreases |args| - i
  {
    if i + step <= |args| {
      RunSucceedsIffAll(blob, disp, args, i + step, step);
      if RunFrom(blob, disp, args, i, step).0 == 0 {
        assert GroupOk(blob, disp, args, i, step);
        forall j | i <= j && j + step <= |args| && Whole(j - i, step)
          ensures GroupOk(blob, disp, args, j, step)
        {
          if j > i {
            CellStep(j - i, step);
          }
        }
      } else if GroupOk(blob, disp, args, i, step) {
        var j :| i + step <= j && j + step <= |args| && Whole(j - (i + step), step) && !GroupOk(blob, disp, args, j, step);
        ShiftAligned(j - i, step);
      }
    }
  }

  /** Shifting by a whole cell keeps alignment. */
  lemma ShiftAligned(x: int, size: int)
    requires size == 1 || size == 2 || size == 4
    ensures Whole(x - size, size) ==> Whole(x, size)
  {
    if size == 2 {
      assert (x - 2) % 2 == x % 2;
    } else if size == 4 {
      assert (x - 4) % 4 == x % 4;
    }
  }

  /** One group of arguments succeeds. */
  predicate GroupOk(blob: Blob, disp: DisplayInfo, args: seq<string>, j: nat, step: int)
    requires BlobOk(blob) && SizeOk(disp.size) && (step == 1 || step == 2)
    requires disp.mode == ModeShowValue <==> step == 2
    requires j + step <= |args|
  {
    if args[j] !in blob then disp.defaultVal.Some?
    else ItemOutput(blob[args[j]], disp, if step == 1 then None else Some(args[j + 1])).0 == 0
  }

  /** A parsed command-line option; for -t, whether the type string was
    * valid and the type and size it decodes to. */
  datatype Opt = TypeOpt(valid: bool, dtype: char, size: int) | PropsOpt | SubnodesOpt | DefaultOpt(value: string)

  /** The options loop of main: the display settings and args_per_step,
    * or None for an invalid type string (a usage error). */
  function ParseOpts(opts: seq<Opt>, disp: DisplayInfo, step: int): (r: Option<(DisplayInfo, int)>)
    requires SizeOk(disp.size) && (step == 1 || step == 2)
    requires disp.mode == ModeShowValue <==> step == 2
    requires forall k :: 0 <= k < |opts| && opts[k].TypeOpt? && opts[k].valid ==> SizeOk(opts[k].size)
    ensures r.Some? ==> SizeOk(r.value.0.size) && (r.value.1 == 1 || r.value.1 == 2)
    ensures r.Some? ==> (r.value.0.mode == ModeShowValue <==> r.value.1 == 2)
    ensures r.None? <==> exists k :: 0 <= k < |opts| && opts[k].TypeOpt? && !opts[k].valid
    decreases |opts|
  {
    if |opts| == 0 then Some((disp, step))
    else match opts[0]
      case TypeOpt(valid, dtype, size) =>
        if !valid then None else ParseOpts(opts[1..], disp.(dtype := dtype, size := size), step)
      case PropsOpt => ParseOpts(opts[1..], disp.(mode := ModeListProps), 1)
      case SubnodesOpt => ParseOpts(opts[1..], disp.(mode := ModeListSubnodes), 1)
      case DefaultOpt(v) => ParseOpts(opts[1..], disp.(defaultVal := Some(v)), step)
  }

  /** -p and -l switch to one argument per step; nothing else changes it,
    * and the mode is "show values" exactly when two arguments make a step. */
  lemma {:induction false} ParseOptsStep(opts: seq<Opt>, disp: DisplayInfo, step: int)
    requires SizeOk(disp.size) && (step == 1 || step == 2)
    requires disp.mode == ModeShowValue <==> step == 2
    requires forall k :: 0 <= k < |opts| && opts[k].TypeOpt? && opts[k].valid ==> SizeOk(opts[k].size)
    ensures var r := ParseOpts(opts, disp, step);
            r.Some? ==> (r.value.1 == 1 <==> step == 1 || exists k :: 0 <= k < |opts| && (opts[k].PropsOpt? || opts[k].SubnodesOpt?))
    decreases |opts|
  {
    if |opts| > 0 && !(opts[0].TypeOpt? && !opts[0].valid) {
      var d' := match opts[0]
        case TypeOpt(_, dtype, size) => disp.(dtype := dtype, size := size)
        case PropsOpt => disp.(mode := ModeListProps)
        case SubnodesOpt => disp.(mode := ModeListSubnodes)
        case DefaultOpt(v) => disp.(defaultVal := Some(v));
      var s' := if opts[0].PropsOpt? || opts[0].SubnodesOpt? then 1 else step;
      ParseOptsStep(opts[1..], d', s');
      assert forall k :: 1 <= k < |opts| ==> opts[1..][k - 1] == opts[k];
    }
  }

  /** How main ends: a usage error or an exit status with its output. */
  datatype Outcome = Usage(message: string) | Exit(status: int, out: seq<Out>)

  /** main: option parsing, then the argument checks, then do_fdtget.
    * The blob is what reading the file gives, None when it fails. */
  method FdtgetMain(opts: seq<Opt>, filename: Option<string>, args: seq<string>, blob: Option<Blob>)
    returns (r: Outcome)
    requires blob.Some? ==> BlobOk(blob.value)
    requires forall k :: 0 <= k < |opts| && opts[k].TypeOpt? && opts[k].valid ==> SizeOk(opts[k].size)
    ensures ParseOpts(opts, DisplayInfo('\0', -1, ModeShowValue, None), 2).None? ==> r == Usage("invalid type string")
    ensures ParseOpts(opts, DisplayInfo('\0', -1, ModeShowValue, None), 2).Some? ==>
              var (disp, step) := ParseOpts(opts, DisplayInfo('\0', -1, ModeShowValue, None), 2).value;
              && (filename.None? ==> r == Usage("missing filename"))
              && (filename.Some? && |args| == 0 ==> r == Exit(0, []))
              && (filename.Some? && |args| > 0 && step == 2 && |args| % 2 == 1 ==>
                    r == Usage("must have an even number of arguments"))
              && (filename.Some? && |args| > 0 && !(step == 2 && |args| % 2 == 1) ==>
                    r.Exit? && (r.status == 0 || r.status == 1)
                    && (blob.None? ==> r == Exit(1, []))
                    && (blob.Some? ==> r == Exit(if RunFrom(blob.value, disp, args, 0, step).0 == 0 then 0 else 1,
                                                 RunFrom(blob.value, disp, args, 0, step).1)))
  {
    var disp := DisplayInfo('\0', -1, ModeShowValue, None);
    var step := 2;
    var k := 0;
    while k < |opts|
      invariant 0 <= k <= |opts|
      invariant SizeOk(disp.size) && (step == 1 || step == 2) && (disp.mode == ModeShowValue <==> step == 2)
      invariant ParseOpts(opts, DisplayInfo('\0', -1, ModeShowValue, None), 2) == ParseOpts(opts[k..], disp, step)
    {
      assert opts[k..][1..] == opts[k + 1..];
      match opts[k] {
        case TypeOpt(valid, dtype, size) =>
          if !valid {
            return Usage("invalid type string");
          }
          disp := disp.(dtype := dtype, size := size);
        case PropsOpt =>
          disp := disp.(mode := ModeListProps);
          step := 1;
        case SubnodesOpt =>
          disp := disp.(mode := ModeListSubnodes);
          step := 1;
        case DefaultOpt(v) =>
          disp := disp.(defaultVal := Some(v));
      }
      k := k + 1;
    }
    assert opts[k..] == [];
    if filename.None? {
      return Usage("missing filename");
    }
    if |args| == 0 {
      return Exit(0, []);
    }
    if step == 2 && |args| % 2 == 1 {
      return Usage("must have an even number of arguments");
    }
    var ret, out := DoFdtget(disp, blob, args, step);
    r := Exit(if ret != 0 then 1 else 0, out);
  }
}
