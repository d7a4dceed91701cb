/** Catalogue cleaning: the `load_data` step of the offline build, which keeps the four expected
    columns, fills absent ones with empty text, drops rows without a description and caps the
    catalogue at 5000 rows under a fresh 0-based index. */
module Catalog {
  import opened Text
  import Seqs

  const MAX_ROWS := 5000

  /** The table as read from CSV: its column names and, per row, the cells it holds.
      A cell absent from a row's map is a missing value (NaN). */
  datatype Frame = Frame(columns: set<string>, rows: seq<map<string, Cell>>)

  /** One catalogue row after cleaning; its position in the catalogue is its index. */
  datatype Book = Book(title: Cell, authors: Cell, description: Cell, genres: Cell)

  /** The cell of column `col` in `row` once absent columns have been filled with "". */
  function CellAt(columns: set<string>, row: map<string, Cell>, col: string): Cell
  {
    if col !in columns then Str("")
    else if col in row then row[col]
    else NaN
  }

  /** A row restricted to the expected columns, its description converted to text with
      `astype(str)` (so a missing description becomes the text "nan"). */
  function Project(columns: set<string>, row: map<string, Cell>): (b: Book)
    ensures b.description.Str?
  {
    Book(CellAt(columns, row, "title"), CellAt(columns, row, "authors"),
         Str(StrOf(CellAt(columns, row, "description"))), CellAt(columns, row, "genres"))
  }

  function Projector(columns: set<string>): map<string, Cell> -> Book
  {
    row => Project(columns, row)
  }

  /** Python's `str.isspace` for one character. */
  predicate IsSpace(c: char)
  {
    var n := c as int;
    (9 <= n <= 13) || (28 <= n <= 32) || n == 0x85 || n == 0xA0 || n == 0x1680
    || (0x2000 <= n <= 0x200A) || n == 0x2028 || n == 0x2029 || n == 0x202F
    || n == 0x205F || n == 0x3000
  }

  function StripLeft(s: string): string
  {
    if s != [] && IsSpace(s[0]) then StripLeft(s[1..]) else s
  }

  function StripRight(s: string): string
  {
    if s != [] && IsSpace(s[|s| - 1]) then StripRight(s[..|s| - 1]) else s
  }

  /** Python's `str.strip()`: leading and trailing whitespace removed. */
  function Strip(s: string): string
  {
    StripRight(StripLeft(s))
  }

  predicate IsBlank(s: string)
  {
    forall i :: 0 <= i < |s| ==> IsSpace(s[i])
  }

  lemma {:induction false} StripLeftEmpty(s: string)
    ensures StripLeft(s) == "" <==> IsBlank(s)
    ensures StripLeft(s) != "" ==> !IsSpace(StripLeft(s)[0])
  {
    if s != [] && IsSpace(s[0]) {
      StripLeftEmpty(s[1..]);
      assert IsBlank(s) <==> IsBlank(s[1..]) by {
        if IsBlank(s[1..]) {
          forall i | 0 <= i < |s| ensures IsSpace(s[i]) {
            if i > 0 { assert s[i] == s[1..][i - 1]; }
          }
        }
      }
    }
  }

  lemma {:induction false} StripRightKeepsFront(s: string)
    requires s != [] && !IsSpace(s[0])
    ensures StripRight(s) != "" && StripRight(s)[0] == s[0]
  {
    if IsSpace(s[|s| - 1]) {
      StripRightKeepsFront(s[..|s| - 1]);
    }
  }

  /** `s.strip() != ""` holds exactly when `s` has a character that is not whitespace. */
  lemma StripEmptyIffBlank(s: string)
    ensures Strip(s) == "" <==> IsBlank(s)
  {
    StripLeftEmpty(s);
    if StripLeft(s) != "" {
      StripRightKeepsFront(StripLeft(s));
    }
  }

  /** The mask `df["description"].str.strip() != ""`. */
  predicate HasText(b: Book)
  {
    b.description.Str? && Strip(b.description.s) != ""
  }

  /** The rows that survive the description filter, in file order, before the cap: never more
      than the file has, each with description text. */
  function Cleaned(f: Frame): (r: seq<Book>)
    ensures |r| <= |f.rows|
    ensures forall j :: 0 <= j < |r| ==> HasText(r[j])
  {
    var projected := Seqs.Map(Projector(f.columns), f.rows);
    Seqs.FilterSelects(HasText, projected);
    Seqs.Filter(HasText, projected)
  }

  /** Every cleaned row is the projection of a file row and has description text. */
  lemma CleanedRowFacts(f: Frame)
    ensures forall b :: b in Cleaned(f) ==>
              HasText(b) && exists i :: 0 <= i < |f.rows| && b == Project(f.columns, f.rows[i])
  {
    var projected := Seqs.Map(Projector(f.columns), f.rows);
    Seqs.FilterSelects(HasText, projected);
    forall b | b in Cleaned(f)
      ensures HasText(b) && exists i :: 0 <= i < |f.rows| && b == Project(f.columns, f.rows[i])
    {
      var j :| 0 <= j < |Cleaned(f)| && Cleaned(f)[j] == b;
      var i := Seqs.Positions(HasText, projected)[j];
      assert b == Project(f.columns, f.rows[i]);
    }
  }

  /** What `df.sample(n=5000)` may return, given as the positions it picks: exactly 5000
      distinct rows, in any order. */
  predicate IsSample(picks: seq<nat>, n: nat)
  {
    && |picks| == MAX_ROWS
    && (forall j :: 0 <= j < |picks| ==> picks[j] < n)
    && (forall j, k :: 0 <= j < k < |picks| ==> picks[j] != picks[k])
  }

  /** `load_data` after the CSV has been read. `picks` stands for the seeded random sampler and
      is consulted only when more than 5000 rows survive cleaning. */
  function LoadData(f: Frame, picks: seq<nat>): (r: seq<Book>)
    requires |Cleaned(f)| > MAX_ROWS ==> IsSample(picks, |Cleaned(f)|)
    ensures |r| <= MAX_ROWS
    ensures forall i :: 0 <= i < |r| ==> r[i].description.Str? && !IsBlank(r[i].description.s)
    ensures forall i :: 0 <= i < |r| ==> r[i] in Cleaned(f)
    ensures |Cleaned(f)| <= MAX_ROWS ==> r == Cleaned(f)
    ensures |Cleaned(f)| > MAX_ROWS ==> |r| == MAX_ROWS
    ensures |Cleaned(f)| > MAX_ROWS ==> forall j :: 0 <= j < |r| ==> r[j] == Cleaned(f)[picks[j]]
    ensures "title" !in f.columns ==> forall i :: 0 <= i < |r| ==> r[i].title == Str("")
    ensures "authors" !in f.columns ==> forall i :: 0 <= i < |r| ==> r[i].authors == Str("")
    ensures "genres" !in f.columns ==> forall i :: 0 <= i < |r| ==> r[i].genres == Str("")
  {
    var rows := Cleaned(f);
    var r := if |rows| > MAX_ROWS then seq(MAX_ROWS, j requires 0 <= j < MAX_ROWS => rows[picks[j]])
             else rows;
    assert forall i :: 0 <= i < |r| ==> r[i] in rows;
    CleanedRowFacts(f);
    forall i | 0 <= i < |r|
      ensures r[i].description.Str? && !IsBlank(r[i].description.s)
    {
      StripEmptyIffBlank(r[i].description.s);
    }
    r
  }

  /** Cleaning keeps file order and drops exactly the rows without description text: the j-th
      surviving row is the projection of file row `ps[j]`, the positions ascend, and every row
      whose description is not blank is among them. */
  lemma CleanedKeepsOrder(f: Frame)
    ensures var ps := Seqs.Positions(HasText, Seqs.Map(Projector(f.columns), f.rows));
      && |ps| == |Cleaned(f)|
      && Seqs.StrictlyIncreasing(ps)
      && (forall j :: 0 <= j < |ps| ==> ps[j] < |f.rows| && Cleaned(f)[j] == Project(f.columns, f.rows[ps[j]]))
      && (forall i :: 0 <= i < |f.rows| && !IsBlank(StrOf(CellAt(f.columns, f.rows[i], "description"))) ==> i in ps)
  {
    var projected := Seqs.Map(Projector(f.columns), f.rows);
    Seqs.FilterSelects(HasText, projected);
    forall i | 0 <= i < |f.rows| && !IsBlank(StrOf(CellAt(f.columns, f.rows[i], "description")))
      ensures HasText(projected[i])
    {
      StripEmptyIffBlank(projected[i].description.s);
    }
  }

  /** `astype(str)` runs before `dropna`, so a row with a missing description is not dropped:
      it stays in the catalogue with the description text "nan". */
  lemma MissingDescriptionKept(f: Frame, i: nat)
    requires "description" in f.columns && i < |f.rows| && "description" !in f.rows[i]
    ensures Project(f.columns, f.rows[i]) in Cleaned(f)
    ensures Project(f.columns, f.rows[i]).description == Str("nan")
  {
    CleanedKeepsOrder(f);
    var projected := Seqs.Map(Projector(f.columns), f.rows);
    var ps := Seqs.Positions(HasText, projected);
    assert !IsBlank("nan") by { assert !IsSpace("nan"[0]); }
    var j :| 0 <= j < |ps| && ps[j] == i;
    assert Cleaned(f)[j] == Project(f.columns, f.rows[i]);
  }

  /** Without a description column every description is "", so the catalogue comes out empty. */
  lemma NoDescriptionColumnEmpties(f: Frame, picks: seq<nat>)
    requires "description" !in f.columns
    ensures Cleaned(f) == []
    ensures LoadData(f, picks) == []
  {
    var projected := Seqs.Map(Projector(f.columns), f.rows);
    assert Strip("") == "";
    Seqs.FilterKeepsNone(HasText, projected);
  }
}
