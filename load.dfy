/** Loading the record file: the canonical columns are filled in, the inspection date is parsed and
    the text columns are cleaned up. A table is held column by column, each cell as its text. */
module Load {
  import opened Wrappers
  import opened Strings
  import opened Schema

  /** A table read from the file: its column names in order, each column's cells, and the row count. */
  datatype Frame = Frame(columns: seq<string>, data: map<string, seq<string>>, height: nat)

  /** Distinct column names, exactly one column of cells per name, and every column `height` cells long. */
  ghost predicate WellFormed(f: Frame)
  {
    && NoDuplicates(f.columns)
    && (forall c :: c in f.columns <==> c in f.data)
    && (forall c :: c in f.data ==> |f.data[c]| == f.height)
  }

  /** The empty table with exactly the canonical columns, as created when there is no file yet. */
  function EmptyTable(): Frame
  {
    Frame(Columns, map c | c in Columns :: [], 0)
  }

  function Blank(n: nat): (r: seq<string>)
    ensures |r| == n && forall i :: 0 <= i < n ==> r[i] == ""
  {
    seq(n, _ => "")
  }

  /** What the parse of a date cell leaves: the date's text, or NaT when the parse fails. */
  const NaT: string := "NaT"

  function DateCell(parse: string -> Option<string>, x: string): string
  {
    parse(x).GetOr(NaT)
  }

  /** The text clean-up of one cell: the whole cell "nan" becomes empty, then a cell ending in
      ".0" loses every ".0" it contains. */
  function CleanCell(x: string): string
  {
    var y := if x == "nan" then "" else x;
    if EndsWith(y, ".0") then RemoveAll(y, ".0") else y
  }

  function DateCells(parse: string -> Option<string>, col: seq<string>): (r: seq<string>)
    ensures |r| == |col| && forall i :: 0 <= i < |col| ==> r[i] == DateCell(parse, col[i])
  {
    seq(|col|, i requires 0 <= i < |col| => DateCell(parse, col[i]))
  }

  function CleanCells(col: seq<string>): (r: seq<string>)
    ensures |r| == |col| && forall i :: 0 <= i < |col| ==> r[i] == CleanCell(col[i])
  {
    seq(|col|, i requires 0 <= i < |col| => CleanCell(col[i]))
  }

  /** The canonical columns of `canon` that are added to a table with columns `cols`, in the order they
      are added: each one not already there, and not added before. */
  function Absent(cols: seq<string>, canon: seq<string>): seq<string>
  {
    if canon == [] then []
    else
      var earlier := Absent(cols, canon[..|canon| - 1]);
      var c := canon[|canon| - 1];
      earlier + (if c in cols + earlier then [] else [c])
  }

  lemma {:induction false} AbsentMembers(cols: seq<string>, canon: seq<string>)
    ensures forall x :: x in Absent(cols, canon) <==> x in canon && x !in cols
    ensures NoDuplicates(cols) ==> NoDuplicates(cols + Absent(cols, canon))
  {
    if canon != [] {
      var init := canon[..|canon| - 1];
      AbsentMembers(cols, init);
      assert canon == init + [canon[|canon| - 1]];
      var earlier := Absent(cols, init);
      var c := canon[|canon| - 1];
      if NoDuplicates(cols) && c !in cols + earlier {
        assert cols + Absent(cols, canon) == (cols + earlier) + [c];
        NoDuplicatesAppend(cols + earlier, c);
      } else if c in cols + earlier {
        assert Absent(cols, canon) == earlier;
      }
    }
  }

  lemma {:induction false} NothingAbsent(cols: seq<string>, canon: seq<string>)
    requires forall x :: x in canon ==> x in cols
    ensures Absent(cols, canon) == []
  {
    if canon != [] {
      NothingAbsent(cols, canon[..|canon| - 1]);
      assert canon[|canon| - 1] in canon;
    }
  }

  /** A column of the loaded table before any conversion: the file's cells, or empty text in every row. */
  function Filled(f: Frame, c: string): seq<string>
  {
    if c in f.data then f.data[c] else Blank(f.height)
  }

  /** A column after the date parse, before the text clean-up. */
  function Dated(f: Frame, c: string, parse: string -> Option<string>): seq<string>
  {
    if c == DateColumn then DateCells(parse, Filled(f, c)) else Filled(f, c)
  }

  function Converted(f: Frame, c: string, parse: string -> Option<string>): seq<string>
  {
    if c in TextColumns then CleanCells(Dated(f, c, parse)) else Dated(f, c, parse)
  }

  /** The table a file with contents `f` loads as. */
  function Loaded(f: Frame, parse: string -> Option<string>): Frame
  {
    var cols := f.columns + Absent(f.columns, Columns);
    Frame(cols, map c | c in cols :: Converted(f, c, parse), f.height)
  }

  /** The table `load_data` returns: the empty table when there is no file, else the loaded file. */
  function LoadResult(file: Option<Frame>, parse: string -> Option<string>): Frame
  {
    match file
    case None => EmptyTable()
    case Some(f) => Loaded(f, parse)
  }

  lemma ColumnsDistinct()
    ensures NoDuplicates(Columns)
  {
  }

  lemma TextColumnsDistinct()
    ensures NoDuplicates(TextColumns)
    ensures DateColumn !in TextColumns
  {
  }

  /** The state of the fill loop after its first `k` canonical columns. */
  ghost predicate FilledBefore(df: Frame, f: Frame, k: nat)
    requires k <= |Columns|
  {
    && df.columns == f.columns + Absent(f.columns, Columns[..k]) && df.height == f.height
    && (forall c :: c in df.columns <==> c in df.data)
    && (forall c :: c in df.data ==> df.data[c] == Filled(f, c))
  }

  lemma FillStep(df: Frame, f: Frame, k: nat)
    requires WellFormed(f) && k < |Columns| && FilledBefore(df, f, k)
    ensures var col := Columns[k];
      FilledBefore(if col in df.columns then df
                   else df.(columns := df.columns + [col], data := df.data[col := Blank(df.height)]), f, k + 1)
  {
    assert Columns[..k + 1][..k] == Columns[..k];
    var col := Columns[k];
    if col !in df.columns {
      assert col !in f.data;
    }
  }

  /** The first loop of `load_data`: every canonical column the file lacks is added, with empty text in every row. */
  method FillColumns(f: Frame) returns (df: Frame)
    requires WellFormed(f)
    ensures df.columns == f.columns + Absent(f.columns, Columns) && df.height == f.height
    ensures forall c :: c in df.columns <==> c in df.data
    ensures forall c :: c in df.data ==> df.data[c] == Filled(f, c)
  {
    df := f;
    var k := 0;
    assert Columns[..0] == [];
    while k < |Columns|
      invariant 0 <= k <= |Columns|
      invariant FilledBefore(df, f, k)
    {
      var col := Columns[k];
      FillStep(df, f, k);
      if col !in df.columns {
        df := df.(columns := df.columns + [col], data := df.data[col := Blank(df.height)]);
      }
      k := k + 1;
    }
    assert Columns[..k] == Columns;
  }

  /** The state of the clean-up loop after its first `k` text columns. */
  ghost predicate CleanedBefore(df: Frame, f: Frame, parse: string -> Option<string>, k: nat)
    requires k <= |TextColumns|
  {
    forall c :: c in df.data ==>
      df.data[c] == if c in TextColumns[..k] then CleanCells(Dated(f, c, parse)) else Dated(f, c, parse)
  }

  lemma CleanStep(df: Frame, f: Frame, parse: string -> Option<string>, k: nat)
    requires k < |TextColumns| && CleanedBefore(df, f, parse, k)
    ensures var col := TextColumns[k];
      CleanedBefore(if col in df.data then df.(data := df.data[col := CleanCells(df.data[col])]) else df,
                    f, parse, k + 1)
  {
    TextColumnsDistinct();
    assert TextColumns[..k + 1] == TextColumns[..k] + [TextColumns[k]];
  }

  /** The last loop of `load_data`: each text column present is cleaned up, cell by cell. */
  method CleanTextColumns(f: Frame, parse: string -> Option<string>, dated: Frame) returns (df: Frame)
    requires forall c :: c in dated.columns <==> c in dated.data
    requires forall c :: c in dated.data ==> dated.data[c] == Dated(f, c, parse)
    ensures df.columns == dated.columns && df.height == dated.height
    ensures forall c :: c in df.columns <==> c in df.data
    ensures forall c :: c in df.data ==> df.data[c] == Converted(f, c, parse)
  {
    df := dated;
    var k := 0;
    while k < |TextColumns|
      invariant 0 <= k <= |TextColumns|
      invariant df.columns == dated.columns && df.height == dated.height
      invariant forall c :: c in df.columns <==> c in df.data
      invariant CleanedBefore(df, f, parse, k)
    {
      var col := TextColumns[k];
      CleanStep(df, f, parse, k);
      if col in df.columns {
        df := df.(data := df.data[col := CleanCells(df.data[col])]);
      }
      k := k + 1;
    }
    assert TextColumns[..k] == TextColumns;
  }

  /** `load_data`: `file` is the file's contents, or None when it does not exist; `parse` is the date
      parser, None standing for a cell it cannot read. */
  method LoadData(file: Option<Frame>, parse: string -> Option<string>) returns (df: Frame)
    requires file.Some? ==> WellFormed(file.value)
    ensures df == LoadResult(file, parse)
  {
    if file.None? {
      return EmptyTable();
    }
    var f := file.value;
    df := FillColumns(f);
    if DateColumn in df.columns {
      df := df.(data := df.data[DateColumn := DateCells(parse, df.data[DateColumn])]);
    }
    df := CleanTextColumns(f, parse, df);
  }

  /** After load every canonical column is present: the file's columns come first, in their order,
      then the canonical ones it lacked; the row count is the file's. */
  lemma LoadedSchema(f: Frame, parse: string -> Option<string>)
    requires WellFormed(f)
    ensures WellFormed(Loaded(f, parse))
    ensures forall c :: c in Columns ==> c in Loaded(f, parse).columns
    ensures Loaded(f, parse).height == f.height
    ensures Loaded(f, parse).columns[..|f.columns|] == f.columns
  {
    LoadedColumns(f, parse);
    LoadedCells(f, parse);
  }

  lemma LoadedColumns(f: Frame, parse: string -> Option<string>)
    requires WellFormed(f)
    ensures NoDuplicates(Loaded(f, parse).columns)
    ensures forall c :: c in Columns ==> c in Loaded(f, parse).columns
    ensures Loaded(f, parse).columns[..|f.columns|] == f.columns
  {
    AbsentMembers(f.columns, Columns);
    assert (f.columns + Absent(f.columns, Columns))[..|f.columns|] == f.columns;
  }

  lemma LoadedCells(f: Frame, parse: string -> Option<string>)
    requires WellFormed(f)
    ensures forall c :: c in Loaded(f, parse).data <==> c in Loaded(f, parse).columns
    ensures forall c :: c in Loaded(f, parse).data ==> |Loaded(f, parse).data[c]| == f.height
  {
  }

  /** Without a file the table has exactly the canonical columns and no rows. */
  lemma MissingFileSchema(parse: string -> Option<string>)
    ensures WellFormed(LoadResult(None, parse))
    ensures LoadResult(None, parse).columns == Columns && LoadResult(None, parse).height == 0
  {
    ColumnsDistinct();
  }

  /** A canonical column missing from the file is empty text in every row; the inspection date,
      if it is the one missing, holds what the parser makes of empty text. */
  lemma AbsentColumnBlank(f: Frame, parse: string -> Option<string>, c: string)
    requires WellFormed(f) && c in Columns && c !in f.columns
    ensures c in Loaded(f, parse).data
    ensures c != DateColumn ==> Loaded(f, parse).data[c] == Blank(f.height)
    ensures c == DateColumn ==> Loaded(f, parse).data[c] == DateCells(parse, Blank(f.height))
  {
    AbsentMembers(f.columns, Columns);
    if c in TextColumns {
      assert CleanCell("") == "";
      assert CleanCells(Blank(f.height)) == Blank(f.height);
    }
  }

  /** Each cell of a text column the file has is the cleaned-up text of the file's cell. */
  lemma TextCellsCleaned(f: Frame, parse: string -> Option<string>, c: string, i: nat)
    requires WellFormed(f) && c in TextColumns && c in f.columns && i < f.height
    ensures c in Loaded(f, parse).data && i < |Loaded(f, parse).data[c]|
    ensures Loaded(f, parse).data[c][i] == CleanCell(f.data[c][i])
  {
    TextColumnsDistinct();
  }

  /** Each cell of the date column the file has is what the parser makes of it. */
  lemma DateCellsParsed(f: Frame, parse: string -> Option<string>, i: nat)
    requires WellFormed(f) && DateColumn in f.columns && i < f.height
    ensures DateColumn in Loaded(f, parse).data && i < |Loaded(f, parse).data[DateColumn]|
    ensures Loaded(f, parse).data[DateColumn][i] == DateCell(parse, f.data[DateColumn][i])
  {
    TextColumnsDistinct();
  }

  /** Every other column of the file (the id, the coordinates, and columns outside the canonical
      set) is loaded as it is. */
  lemma OtherColumnsKept(f: Frame, parse: string -> Option<string>, c: string)
    requires WellFormed(f) && c in f.columns && c !in TextColumns && c != DateColumn
    ensures c in Loaded(f, parse).data && Loaded(f, parse).data[c] == f.data[c]
  {
  }

  /** The file written when none existed loads as the table returned then. */
  lemma ReloadOfCreatedFile(parse: string -> Option<string>)
    ensures LoadResult(Some(EmptyTable()), parse) == EmptyTable()
  {
    var e := EmptyTable();
    NothingAbsent(Columns, Columns);
    assert Columns + Absent(Columns, Columns) == Columns;
    forall c | c in Columns
      ensures Converted(e, c, parse) == []
    {
      assert Filled(e, c) == [];
    }
  }

  /** The clean-up of one cell: "nan" becomes empty text; a cell not ending in ".0" is kept; one ending
      in ".0" loses every ".0" in it and so gets shorter; no cell gets longer. */
  lemma CleanCellCases(x: string)
    ensures x == "nan" ==> CleanCell(x) == ""
    ensures x != "nan" && !EndsWith(x, ".0") ==> CleanCell(x) == x
    ensures x != "nan" && EndsWith(x, ".0") ==> CleanCell(x) == RemoveAll(x, ".0") && |CleanCell(x)| < |x|
    ensures x != "nan" && !Contains(x, ".0") ==> CleanCell(x) == x
    ensures |CleanCell(x)| <= |x|
  {
    if x != "nan" && EndsWith(x, ".0") {
      assert Contains(x, ".0") by {
        EndsWithContains(x, ".0");
      }
    }
    if x != "nan" && !Contains(x, ".0") && EndsWith(x, ".0") {
      EndsWithContains(x, ".0");
    }
  }

  lemma {:induction false} EndsWithContains(s: string, p: string)
    requires EndsWith(s, p)
    ensures Contains(s, p)
    decreases |s|
  {
    if !StartsWith(s, p) {
      assert s[1..][|s[1..]| - |p|..] == s[|s| - |p|..];
      EndsWithContains(s[1..], p);
    }
  }

  /** A float-rendered postcode loses its suffix. */
  lemma CleanPostcode()
    ensures CleanCell("10115.0") == "10115"
  {
    assert RemoveAll("10115.0", ".0") == "10115" by {
      assert "10115.0"[1..] == "0115.0";
      assert "0115.0"[1..] == "115.0";
      assert "115.0"[1..] == "15.0";
      assert "15.0"[1..] == "5.0";
      assert "5.0"[1..] == ".0";
      assert ".0"[2..] == "";
    }
  }

  /** Cleaning is not idempotent: removing every ".0" can leave a new ".0" at the end, which the next load
      of the saved table removes in turn. */
  lemma CleanCellNotIdempotent()
    ensures CleanCell("7..00.0") == "7.0"
    ensures CleanCell(CleanCell("7..00.0")) == "7"
  {
    assert RemoveAll("", ".0") == "";
    assert RemoveAll(".0", ".0") == "" by { assert ".0"[2..] == ""; }
    assert RemoveAll("0.0", ".0") == "0" by { assert "0.0"[1..] == ".0"; }
    assert RemoveAll(".00.0", ".0") == "0" by { assert ".00.0"[2..] == "0.0"; }
    assert RemoveAll("..00.0", ".0") == ".0" by { assert "..00.0"[1..] == ".00.0"; }
    assert RemoveAll("7..00.0", ".0") == "7.0" by { assert "7..00.0"[1..] == "..00.0"; }
    assert RemoveAll("7.0", ".0") == "7" by { assert "7.0"[1..] == ".0"; }
  }
}
