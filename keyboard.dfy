/**
 * The button grid under a poll: the choices two per row, each button
 * carrying its global index in decimal as its payload.
 */
module Keyboard {
  import opened Wrappers
  import opened Strconv
  import opened Poll

  datatype Button = Button(text: string, callbackData: string)

  /** The buttons of the rows, row after row. */
  function Flatten(rows: seq<seq<Button>>): seq<Button> {
    if rows == [] then [] else Flatten(rows[..|rows| - 1]) + rows[|rows| - 1]
  }

  /** The button for the choice at index `k`: its label, and `k` in decimal as payload. */
  function ButtonFor(choices: seq<string>, k: nat): Button
    requires k < |choices|
  {
    Button(choices[k], Itoa(k))
  }

  /** The button of every choice, in order. */
  function AllButtons(choices: seq<string>): (r: seq<Button>)
    ensures |r| == |choices|
    ensures forall k :: 0 <= k < |r| ==> r[k] == ButtonFor(choices, k)
  {
    seq(|choices|, k requires 0 <= k < |choices| => ButtonFor(choices, k))
  }

  lemma SliceExtend(s: seq<Button>, i: nat, j: nat)
    requires i <= j < |s|
    ensures s[i..j + 1] == s[i..j] + [s[j]]
  {
  }

  lemma SliceSplit(s: seq<Button>, i: nat, j: nat)
    requires i <= j <= |s|
    ensures s[..j] == s[..i] + s[i..j]
  {
  }

  lemma FlattenAppend(rows: seq<seq<Button>>, row: seq<Button>)
    ensures Flatten(rows + [row]) == Flatten(rows) + row
  {
    assert (rows + [row])[..|rows|] == rows;
  }

  /**
   * The layout of a grid for `n` choices: ceil(n/2) rows, all of two
   * buttons except that the last has one when n is odd.
   */
  predicate TwoPerRow(n: nat, rows: seq<seq<Button>>) {
    && |rows| == (n + 1) / 2
    && (forall r :: 0 <= r < |rows| - 1 ==> |rows[r]| == 2)
    && (rows != [] ==> |rows[|rows| - 1]| == 2 - n % 2)
  }

  /**
   * `generateInlineKeyboard`: ceil(n/2) rows, all of two buttons except
   * that the last has one when n is odd; read row by row the buttons are
   * the choices in order, the k-th with payload `Itoa(k)`.
   */
  method GenerateInlineKeyboard(whoMsg: WhoMessage) returns (ikb: seq<seq<Button>>)
    ensures TwoPerRow(|whoMsg.choices|, ikb)
    ensures Flatten(ikb) == AllButtons(whoMsg.choices)
  {
    var n := |whoMsg.choices|;
    ghost var all := AllButtons(whoMsg.choices);
    ikb := [];
    var idx := 0;
    var i := 0;
    while i < (n + 1) / 2
      invariant 0 <= i <= (n + 1) / 2
      invariant idx == if 2 * i <= n then 2 * i else n
      invariant |ikb| == i
      invariant forall r :: 0 <= r < |ikb| ==> |ikb[r]| == (if 2 * r + 2 <= n then 2 else n - 2 * r)
      invariant Flatten(ikb) == all[..idx]
    {
      var ibkA: seq<Button> := [];
      var nxtIdx := idx + 2;
      if n < nxtIdx {
        nxtIdx := n;
      }
      var choices := whoMsg.choices[idx..nxtIdx];
      ghost var start := idx;
      var c := 0;
      while c < |choices|
        invariant 0 <= c <= |choices|
        invariant idx == start + c
        invariant ibkA == all[start..idx]
      {
        assert choices[c] == whoMsg.choices[idx];
        assert Button(choices[c], Itoa(idx)) == all[idx];
        SliceExtend(all, start, idx);
        ibkA := ibkA + [Button(choices[c], Itoa(idx))];
        idx := idx + 1;
        c := c + 1;
      }
      assert |ibkA| == (if 2 * i + 2 <= n then 2 else n - 2 * i);
      FlattenAppend(ikb, ibkA);
      SliceSplit(all, start, idx);
      ikb := ikb + [ibkA];
      assert Flatten(ikb) == all[..idx];
      i := i + 1;
    }
    assert all[..n] == all;
  }

  /** Rows of two buttons each hold twice as many buttons as there are rows. */
  lemma {:induction false} FlattenFullRows(rows: seq<seq<Button>>)
    requires forall r :: 0 <= r < |rows| ==> |rows[r]| == 2
    ensures |Flatten(rows)| == 2 * |rows|
  {
    if rows != [] {
      FlattenFullRows(rows[..|rows| - 1]);
    }
  }

  /** When every row before row `r` is full, its `j`-th button is button `2r + j` of the whole. */
  lemma {:induction false} FlattenAt(rows: seq<seq<Button>>, r: nat, j: nat)
    requires r < |rows| && j < |rows[r]|
    requires forall q :: 0 <= q < r ==> |rows[q]| == 2
    ensures 2 * r + j < |Flatten(rows)| && Flatten(rows)[2 * r + j] == rows[r][j]
  {
    var init := rows[..|rows| - 1];
    FlattenAppend(init, rows[|rows| - 1]);
    assert rows == init + [rows[|rows| - 1]];
    if r < |rows| - 1 {
      FlattenAt(init, r, j);
    } else {
      FlattenFullRows(init);
    }
  }

  /**
   * In a grid laid out by `GenerateInlineKeyboard`, row `r` holds the
   * choices `2r` and `2r + 1` (as many as exist), with those indices as
   * payloads.
   */
  lemma RowButton(choices: seq<string>, rows: seq<seq<Button>>, r: nat, j: nat)
    requires forall q :: 0 <= q < |rows| - 1 ==> |rows[q]| == 2
    requires Flatten(rows) == AllButtons(choices)
    requires r < |rows| && j < |rows[r]|
    ensures 2 * r + j < |choices| && rows[r][j] == ButtonFor(choices, 2 * r + j)
  {
    FlattenAt(rows, r, j);
  }

  /**
   * The payload of every button reads back, through `strconv.Atoi`, as the
   * index of that button's choice.
   */
  lemma PayloadSelectsChoice(choices: seq<string>, k: nat)
    requires k < |choices| && InIntRange(k)
    ensures Atoi(ButtonFor(choices, k).callbackData) == Some(k)
  {
    AtoiItoa(k);
  }
}
