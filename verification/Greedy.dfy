/** The merge of code and data, and which of the merged items are printed. */
module Greedy {
  import opened Common
  import opened Program
  import opened Events

  // ---- the merge is a sorted permutation ----

  function CodeOf(items: seq<Item>): seq<CodeBlock> {
    if items == [] then []
    else (if items[0].Code? then [items[0].block] else []) + CodeOf(items[1..])
  }

  function DataOf(items: seq<Item>): seq<DataBlock> {
    if items == [] then []
    else (if items[0].Data? then [items[0].data] else []) + DataOf(items[1..])
  }

  predicate DataSorted(data: seq<DataBlock>) {
    forall k, l :: 0 <= k < l < |data| ==> data[k].address <= data[l].address
  }

  /** In address order, with code before data at equal addresses. */
  predicate ItemsSorted(items: seq<Item>) {
    forall k, l :: 0 <= k < l < |items| ==> InOrder(items[k], items[l])
  }

  predicate InOrder(a: Item, b: Item) {
    a.Start() < b.Start() || (a.Start() == b.Start() && (b.Code? ==> a.Code?))
  }

  lemma {:induction false} MergeKeeps(code: seq<CodeBlock>, i: nat, data: seq<DataBlock>, k: nat)
    requires i <= |code| && k <= |data|
    ensures CodeOf(MergeFrom(code, i, data, k)) == code[i..]
    ensures DataOf(MergeFrom(code, i, data, k)) == data[k..]
    decreases |code| - i + |data| - k
  {
    if i < |code| && (k == |data| || code[i].address <= data[k].address) {
      MergeKeeps(code, i + 1, data, k);
      assert [code[i]] + code[i + 1..] == code[i..];
    } else if k < |data| {
      MergeKeeps(code, i, data, k + 1);
      assert [data[k]] + data[k + 1..] == data[k..];
    }
  }

  lemma MergeHeadIsLeast(head: Item, rest: seq<Item>)
    requires ItemsSorted(rest) && forall x :: x in rest ==> InOrder(head, x)
    ensures ItemsSorted([head] + rest)
  {
  }

  lemma {:induction false} MergeSorts(code: seq<CodeBlock>, i: nat, data: seq<DataBlock>, k: nat)
    requires i <= |code| && k <= |data| && SortedByAddress(code) && DataSorted(data)
    ensures ItemsSorted(MergeFrom(code, i, data, k))
    ensures forall x :: x in MergeFrom(code, i, data, k) ==>
      match x
      case Code(b) => i < |code| && code[i].address <= b.address
      case Data(d) => k < |data| && data[k].address <= d.address
    decreases |code| - i + |data| - k
  {
    if i < |code| && (k == |data| || code[i].address <= data[k].address) {
      MergeSorts(code, i + 1, data, k);
      MergeHeadIsLeast(Code(code[i]), MergeFrom(code, i + 1, data, k));
    } else if k < |data| {
      MergeSorts(code, i, data, k + 1);
      MergeHeadIsLeast(Data(data[k]), MergeFrom(code, i, data, k + 1));
    }
  }

  /** Every block appears exactly once in the merge, which is in address order, code first. */
  lemma MergeIsSortedPermutation(code: seq<CodeBlock>, data: seq<DataBlock>)
    requires SortedByAddress(code) && DataSorted(data)
    ensures var items := MergeItems(code, data);
      CodeOf(items) == code && DataOf(items) == data && ItemsSorted(items)
  {
    MergeKeeps(code, 0, data, 0);
    MergeSorts(code, 0, data, 0);
  }

  // ---- which items are printed ----

  predicate IsPrinted(items: seq<Item>, k: nat)
    requires k < |items|
  {
    !Overlaps(items[k], Cursor(items, k))
  }

  predicate EndsInSpace(items: seq<Item>) {
    forall k :: 0 <= k < |items| ==> items[k].Start() + items[k].Size() < ADDRESS_SPACE
  }

  function End(item: Item): nat {
    item.Start() + item.Size()
  }

  /** The cursor never moves back, and is the greatest end of an item printed so far. */
  lemma {:induction false} CursorIsMaximalEnd(items: seq<Item>, k: nat)
    requires k <= |items| && EndsInSpace(items)
    ensures forall m :: 0 <= m < k && IsPrinted(items, m) ==> End(items[m]) <= Cursor(items, k)
    ensures Cursor(items, k) == 0 || exists m :: 0 <= m < k && IsPrinted(items, m) && End(items[m]) == Cursor(items, k)
    ensures k > 0 ==> Cursor(items, k - 1) <= Cursor(items, k)
  {
    if k > 0 {
      CursorIsMaximalEnd(items, k - 1);
      assert EndsInSpace(items) ==> items[k - 1].Start() + items[k - 1].Size() < ADDRESS_SPACE;
    }
  }

  /** An item is replaced by a warning exactly when it starts below the end of one printed before. */
  lemma GreedyChoice(items: seq<Item>, k: nat)
    requires k < |items| && EndsInSpace(items)
    ensures !IsPrinted(items, k) <==>
      exists m :: 0 <= m < k && IsPrinted(items, m) && items[k].Start() < End(items[m])
  {
    CursorIsMaximalEnd(items, k);
  }

  /** Printed items do not overlap, whatever the input. */
  lemma PrintedItemsAreDisjoint(items: seq<Item>, m: nat, k: nat)
    requires m < k < |items| && EndsInSpace(items) && IsPrinted(items, m) && IsPrinted(items, k)
    ensures End(items[m]) <= items[k].Start()
  {
    GreedyChoice(items, k);
  }
}
