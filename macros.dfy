/** The matrix-flattening macro `fmt_mat_f32` of src/macros.rs.

    The macro dereferences a 4x4 matrix as four inner arrays of four
    elements (`[[f32; 4]; 4]`; nalgebra stores a matrix column by column,
    so the inner arrays are its columns) and collects
    `into_iter().flatten()` into a vector. Only the layout matters, so the
    element type is a type parameter here. */
module Macros {

  /** `into_iter().flatten().collect()` over a sequence of inner sequences:
      the inner sequences concatenated in outer order. Every element of every
      inner sequence is in the result (`FlattenOnlyFromRows` gives the
      converse). */
  function Flatten<T>(rows: seq<seq<T>>): (r: seq<T>)
    ensures forall c, k :: 0 <= c < |rows| && 0 <= k < |rows[c]| ==> rows[c][k] in r
  {
    if rows == [] then []
    else
      assert forall c :: 1 <= c < |rows| ==> rows[c] == rows[1..][c - 1];
      rows[0] + Flatten(rows[1..])
  }

  /** Nothing but the elements of the inner sequences is in the result. */
  lemma {:induction false} FlattenOnlyFromRows<T>(rows: seq<seq<T>>)
    ensures forall i :: 0 <= i < |Flatten(rows)| ==> exists c :: 0 <= c < |rows| && Flatten(rows)[i] in rows[c]
  {
    if rows != [] {
      var rest := Flatten(rows[1..]);
      FlattenOnlyFromRows(rows[1..]);
      assert Flatten(rows) == rows[0] + rest;
      forall i | 0 <= i < |Flatten(rows)|
        ensures exists c :: 0 <= c < |rows| && Flatten(rows)[i] in rows[c]
      {
        if i < |rows[0]| {
          assert Flatten(rows)[i] in rows[0];
        } else {
          var c :| 0 <= c < |rows[1..]| && rest[i - |rows[0]|] in rows[1..][c];
          assert Flatten(rows)[i] in rows[c + 1];
        }
      }
    } else {
      assert Flatten(rows) == [];
    }
  }

  /** Every inner sequence has four elements, as the inner arrays of a
      `[[f32; 4]; 4]` do. */
  ghost predicate RowsOfFour<T>(rows: seq<seq<T>>)
  {
    forall c :: 0 <= c < |rows| ==> |rows[c]| == 4
  }

  /** The shape of `[[f32; 4]; 4]`. */
  ghost predicate IsMat4<T>(m: seq<seq<T>>)
  {
    |m| == 4 && RowsOfFour(m)
  }

  /** Flattening rows of four puts row `c`, element `k` at index `4 * c + k`. */
  lemma {:induction false} FlattenRowsOfFour<T>(rows: seq<seq<T>>)
    requires RowsOfFour(rows)
    ensures |Flatten(rows)| == 4 * |rows|
    ensures forall c, k :: 0 <= c < |rows| && 0 <= k < 4 ==> Flatten(rows)[4 * c + k] == rows[c][k]
  {
    if rows != [] {
      var rest := Flatten(rows[1..]);
      FlattenRowsOfFour(rows[1..]);
      assert Flatten(rows) == rows[0] + rest;
      forall c, k | 0 <= c < |rows| && 0 <= k < 4
        ensures Flatten(rows)[4 * c + k] == rows[c][k]
      {
        if c > 0 {
          assert rows[c] == rows[1..][c - 1];
          assert rest[4 * (c - 1) + k] == rows[1..][c - 1][k];
        }
      }
    }
  }

  /** `fmt_mat_f32!(mat)`: the sixteen entries of the matrix, inner array by
      inner array. */
  function FmtMat<T>(m: seq<seq<T>>): (r: seq<T>)
    requires IsMat4(m)
    ensures |r| == 16
    ensures forall c, k :: 0 <= c < 4 && 0 <= k < 4 ==> r[4 * c + k] == m[c][k]
  {
    FlattenRowsOfFour(m);
    Flatten(m)
  }

  /** The inverse view: consecutive chunks of four. */
  function ChunksOfFour<T>(s: seq<T>): (r: seq<seq<T>>)
    requires |s| % 4 == 0
    decreases |s|
  {
    if s == [] then [] else [s[..4]] + ChunksOfFour(s[4..])
  }

  /** Cutting a flattened sequence of rows of four into chunks of four gives
      the rows back: nothing is dropped, duplicated or reordered. */
  lemma {:induction false} ChunksOfFlatten<T>(rows: seq<seq<T>>)
    requires RowsOfFour(rows)
    ensures |Flatten(rows)| % 4 == 0
    ensures ChunksOfFour(Flatten(rows)) == rows
  {
    FlattenRowsOfFour(rows);
    if rows != [] {
      var f := Flatten(rows);
      assert f == rows[0] + Flatten(rows[1..]);
      assert f[..4] == rows[0];
      assert f[4..] == Flatten(rows[1..]);
      ChunksOfFlatten(rows[1..]);
    }
  }

  /** Flattening the chunks of a sequence gives the sequence back. */
  lemma {:induction false} FlattenOfChunks<T>(s: seq<T>)
    requires |s| % 4 == 0
    ensures RowsOfFour(ChunksOfFour(s))
    ensures Flatten(ChunksOfFour(s)) == s
    decreases |s|
  {
    if s != [] {
      FlattenOfChunks(s[4..]);
      var r := ChunksOfFour(s);
      assert r[1..] == ChunksOfFour(s[4..]);
      assert s == s[..4] + s[4..];
    }
  }

  /** The macro's output determines the matrix: `ChunksOfFour` undoes it. */
  lemma FmtMatRoundTrip<T>(m: seq<seq<T>>)
    requires IsMat4(m)
    ensures ChunksOfFour(FmtMat(m)) == m
  {
    ChunksOfFlatten(m);
  }

  /** Every sixteen-element sequence is the output for exactly one matrix. */
  lemma FmtMatOnto<T>(s: seq<T>)
    requires |s| == 16
    ensures IsMat4(ChunksOfFour(s))
    ensures FmtMat(ChunksOfFour(s)) == s
  {
    FlattenOfChunks(s);
    assert |ChunksOfFour(s)| == 4 by {
      FlattenRowsOfFour(ChunksOfFour(s));
    }
  }
}
