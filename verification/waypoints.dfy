/** The waypoint store: a table with one column per taught sequence, the
    index of forward and reverse sequences built from it when replaying,
    and the merge that appends a newly taught sequence as a column. */
module Waypoints {
  import opened Poses
  import opened Optional

  /** One spreadsheet column: its header and its cells, already decoded;
      an empty cell is `None`. */
  datatype Column = Column(name: string, cells: seq<Option<Pose>>)

  type Table = seq<Column>

  /** Sequence name to the poses it visits. */
  type Index = map<string, seq<Pose>>

  const REVERSE_PREFIX: string := "reverse_"

  /** The key under which a sequence's return path is stored. */
  function ReverseKey(name: string): string {
    REVERSE_PREFIX + name
  }

  lemma ReverseKeyInjective(a: string, b: string)
    ensures ReverseKey(a) == ReverseKey(b) ==> a == b
    ensures ReverseKey(a) != a
  {
    if ReverseKey(a) == ReverseKey(b) {
      assert a == ReverseKey(a)[|REVERSE_PREFIX|..];
      assert b == ReverseKey(b)[|REVERSE_PREFIX|..];
    }
    assert |ReverseKey(a)| == |a| + 8;
  }

  /** The non-empty cells of a column, in row order. */
  function Present(cells: seq<Option<Pose>>): (ps: seq<Pose>)
    ensures |ps| <= |cells|
    ensures forall p :: p in ps <==> Some(p) in cells
  {
    if cells == [] then []
    else
      assert forall c :: c in cells <==> c == cells[0] || c in cells[1..];
      (if cells[0].Some? then [cells[0].value] else []) + Present(cells[1..])
  }

  lemma {:induction false} PresentConcat(a: seq<Option<Pose>>, b: seq<Option<Pose>>)
    ensures Present(a + b) == Present(a) + Present(b)
  {
    if a == [] {
      assert a + b == b;
    } else {
      assert (a + b)[1..] == a[1..] + b;
      PresentConcat(a[1..], b);
    }
  }

  /** The rows holding a pose, from the top. */
  function PresentRows(cells: seq<Option<Pose>>): (rows: seq<nat>)
    ensures forall k :: 0 <= k < |rows| ==> rows[k] < |cells| && cells[rows[k]].Some?
    ensures forall k, l :: 0 <= k < l < |rows| ==> rows[k] < rows[l]
    ensures forall j :: 0 <= j < |cells| && cells[j].Some? ==> j in rows
  {
    if cells == [] then []
    else
      var init := cells[..|cells| - 1];
      var rows := PresentRows(init);
      assert forall j :: 0 <= j < |init| ==> init[j] == cells[j];
      if cells[|cells| - 1].Some? then rows + [|cells| - 1] else rows
  }

  /** A column's poses are its non-empty cells, each once, in row order:
      the k-th pose is the one in the k-th row that holds a pose. */
  lemma {:induction false} PresentInRowOrder(cells: seq<Option<Pose>>)
    ensures var ps, rows := Present(cells), PresentRows(cells);
      |ps| == |rows| && forall k :: 0 <= k < |rows| ==> cells[rows[k]] == Some(ps[k])
  {
    if cells != [] {
      var init, last := cells[..|cells| - 1], cells[|cells| - 1];
      var ps0, rows0 := Present(init), PresentRows(init);
      assert cells == init + [last];
      PresentConcat(init, [last]);
      assert Present([last]) == if last.Some? then [last.value] else [] by {
        assert [last][1..] == [];
      }
      PresentInRowOrder(init);
      var ps, rows := Present(cells), PresentRows(cells);
      assert ps == ps0 + Present([last]);
      assert rows == if last.Some? then rows0 + [|cells| - 1] else rows0;
      forall k | 0 <= k < |rows|
        ensures cells[rows[k]] == Some(ps[k])
      {
        if k < |rows0| {
          assert rows[k] == rows0[k] && ps[k] == ps0[k];
          assert init[rows0[k]] == cells[rows0[k]];
        }
      }
    }
  }

  /** `n` empty cells. */
  function Blank(n: nat): (cells: seq<Option<Pose>>)
    ensures |cells| == n && forall k :: 0 <= k < n ==> cells[k] == None
  {
    seq(n, _ => None)
  }

  lemma {:induction false} PresentBlank(n: nat)
    ensures Present(Blank(n)) == []
  {
    if n > 0 {
      assert Blank(n)[1..] == Blank(n - 1);
      PresentBlank(n - 1);
    }
  }

  /** A recorded sequence written out as cells, one pose per row. */
  function Cells(ps: seq<Pose>): (cells: seq<Option<Pose>>)
    ensures |cells| == |ps| && forall k :: 0 <= k < |ps| ==> cells[k] == Some(ps[k])
  {
    seq(|ps|, k requires 0 <= k < |ps| => Some(ps[k]))
  }

  /** Reading back the cells of a recorded sequence gives the sequence. */
  lemma {:induction false} PresentCells(ps: seq<Pose>)
    ensures Present(Cells(ps)) == ps
  {
    if ps != [] {
      assert Cells(ps)[1..] == Cells(ps[1..]);
      PresentCells(ps[1..]);
    }
  }

  function Reverse<T>(s: seq<T>): (r: seq<T>)
    ensures |r| == |s|
    ensures forall k :: 0 <= k < |s| ==> r[k] == s[|s| - 1 - k]
  {
    if s == [] then [] else Reverse(s[1..]) + [s[0]]
  }

  /** One step of the fold over the table's columns: store the column's
      poses under its name and their reversal under the reverse key,
      replacing whatever an earlier column stored there. */
  function AddColumn(index: Index, c: Column): Index {
    var forward := Present(c.cells);
    index[c.name := forward][ReverseKey(c.name) := Reverse(forward)]
  }

  /** The index built from the table, column by column from the left. */
  function BuildIndex(table: Table): Index {
    if table == [] then map[]
    else AddColumn(BuildIndex(table[..|table| - 1]), table[|table| - 1])
  }

  /** Every column gets both its keys, even with no cells, and nothing else
      is a key. */
  lemma {:induction false} IndexKeys(table: Table)
    ensures BuildIndex(table).Keys
      == (set c | c in table :: c.name) + (set c | c in table :: ReverseKey(c.name))
  {
    if table != [] {
      var init, last := table[..|table| - 1], table[|table| - 1];
      assert table == init + [last];
      assert forall c :: c in table <==> c in init || c == last;
      IndexKeys(init);
    }
  }

  /** Column `c` stores something under `key`. */
  predicate Writes(c: Column, key: string) {
    key == c.name || key == ReverseKey(c.name)
  }

  /** What column `c` stores under one of its two keys. */
  function Entry(c: Column, key: string): seq<Pose> {
    if key == c.name then Present(c.cells) else Reverse(Present(c.cells))
  }

  /** A key holds what the last column writing it stored there. */
  lemma {:induction false} LastWriterWins(table: Table, i: int, key: string)
    requires 0 <= i < |table| && Writes(table[i], key)
    requires forall j :: i < j < |table| ==> !Writes(table[j], key)
    ensures key in BuildIndex(table) && BuildIndex(table)[key] == Entry(table[i], key)
  {
    var init, last := table[..|table| - 1], table[|table| - 1];
    ReverseKeyInjective(last.name, last.name);
    if i < |table| - 1 {
      assert !Writes(last, key);
      assert init[i] == table[i];
      LastWriterWins(init, i, key);
    }
  }

  /** No two columns share a name, and no column is named like the reverse
      key of another. */
  predicate Unambiguous(table: Table) {
    forall i, j :: 0 <= i < |table| && 0 <= j < |table| && i != j ==>
      table[i].name != table[j].name && table[i].name != ReverseKey(table[j].name)
  }

  /** In a table without clashing names, every column's poses are stored in
      order under its name and exactly reversed under its reverse key. */
  lemma IndexOfUnambiguous(table: Table, i: int)
    requires Unambiguous(table) && 0 <= i < |table|
    ensures var index, c := BuildIndex(table), table[i];
      && c.name in index && ReverseKey(c.name) in index
      && index[c.name] == Present(c.cells)
      && index[ReverseKey(c.name)] == Reverse(index[c.name])
  {
    var c := table[i];
    forall j | i < j < |table|
      ensures !Writes(table[j], c.name) && !Writes(table[j], ReverseKey(c.name))
    {
      ReverseKeyInjective(c.name, table[j].name);
    }
    ReverseKeyInjective(c.name, c.name);
    LastWriterWins(table, i, c.name);
    LastWriterWins(table, i, ReverseKey(c.name));
  }

  /** Later columns overwrite: a column named "reverse_a" loses its poses to
      the reversal of a later column "a". */
  lemma LaterColumnOverwrites(p: Pose)
    ensures var index := BuildIndex([Column("reverse_a", [Some(p)]), Column("a", [])]);
      "reverse_a" in index && index["reverse_a"] == []
  {
    var table := [Column("reverse_a", [Some(p)]), Column("a", [])];
    assert ReverseKey("a") == "reverse_a";
    LastWriterWins(table, 1, "reverse_a");
  }

  /** The longest column's length: the table's row count. */
  function Height(table: Table): (h: nat)
    ensures forall c :: c in table ==> |c.cells| <= h
    ensures table == [] ==> h == 0
    ensures table != [] ==> exists c :: c in table && |c.cells| == h
  {
    if table == [] then 0
    else
      var init, last := table[..|table| - 1], table[|table| - 1];
      assert table == init + [last];
      assert forall c :: c in table ==> c in init || c == last;
      var h := Height(init);
      if |last.cells| > h then |last.cells| else
        assert init == [] ==> |last.cells| == h;
        h
  }

  /** `c` is `original` with empty cells appended. */
  predicate PaddedFrom(c: Column, original: Column) {
    && c.name == original.name
    && |original.cells| <= |c.cells|
    && c.cells[..|original.cells|] == original.cells
    && forall k :: |original.cells| <= k < |c.cells| ==> c.cells[k] == None
  }

  function Pad(c: Column, height: nat): (padded: Column)
    requires |c.cells| <= height
    ensures PaddedFrom(padded, c) && |padded.cells| == height
  {
    var padded := Column(c.name, c.cells + Blank(height - |c.cells|));
    assert padded.cells[..|c.cells|] == c.cells;
    padded
  }

  /** The table after a teach session: the recorded poses appended as a new
      last column named `name`, and every column padded with empty cells to
      the common height. */
  function Merge(table: Table, name: string, poses: seq<Pose>): (merged: Table)
    ensures |merged| == |table| + 1
    ensures forall i :: 0 <= i < |table| ==> PaddedFrom(merged[i], table[i])
    ensures PaddedFrom(merged[|table|], Column(name, Cells(poses)))
    ensures forall c :: c in merged ==> |c.cells| == if Height(table) < |poses| then |poses| else Height(table)
  {
    var height := if Height(table) < |poses| then |poses| else Height(table);
    assert forall i :: 0 <= i < |table| ==> |table[i].cells| <= height by {
      assert forall i :: 0 <= i < |table| ==> table[i] in table;
    }
    var kept := seq(|table|, i requires 0 <= i < |table| => Pad(table[i], height));
    var added := Pad(Column(name, Cells(poses)), height);
    assert forall c :: c in kept ==> |c.cells| == height;
    kept + [added]
  }

  lemma PaddedPresent(c: Column, original: Column)
    requires PaddedFrom(c, original)
    ensures Present(c.cells) == Present(original.cells)
  {
    var n := |c.cells| - |original.cells|;
    assert c.cells == original.cells + Blank(n);
    PresentConcat(original.cells, Blank(n));
    PresentBlank(n);
  }

  /** Padding does not change what an index stores. */
  lemma {:induction false} IndexIgnoresPadding(padded: Table, table: Table)
    requires |padded| == |table|
    requires forall i :: 0 <= i < |table| ==> PaddedFrom(padded[i], table[i])
    ensures BuildIndex(padded) == BuildIndex(table)
  {
    if table != [] {
      var n := |table| - 1;
      var p0, t0 := padded[..n], table[..n];
      forall i | 0 <= i < n
        ensures PaddedFrom(p0[i], t0[i])
      {
        assert p0[i] == padded[i] && t0[i] == table[i];
      }
      IndexIgnoresPadding(p0, t0);
      PaddedPresent(padded[n], table[n]);
      SameEntriesSameIndex(BuildIndex(p0), padded[n], table[n]);
    }
  }

  lemma SameEntriesSameIndex(index: Index, a: Column, b: Column)
    requires a.name == b.name && Present(a.cells) == Present(b.cells)
    ensures AddColumn(index, a) == AddColumn(index, b)
  {
  }

  /** Indexing the merged table, as teach mode holds it before writing it
      out, gives the index of the old table with the new sequence added
      last: the new name maps to the recorded poses and its reverse key to
      their reversal, and every other key is unchanged. */
  lemma MergeThenLoad(table: Table, name: string, poses: seq<Pose>)
    ensures var index := BuildIndex(Merge(table, name, poses));
      && index == BuildIndex(table)[name := poses][ReverseKey(name) := Reverse(poses)]
      && index[name] == poses && index[ReverseKey(name)] == Reverse(poses)
  {
    var merged := Merge(table, name, poses);
    var n := |table|;
    IndexIgnoresPadding(merged[..n], table);
    PaddedPresent(merged[n], Column(name, Cells(poses)));
    PresentCells(poses);
    ReverseKeyInjective(name, name);
  }
}
