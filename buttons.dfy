/**
 * The logic of the native Buttons block editor: the mapping from the
 * `align` attribute to a flex `justifyContent`, the `shouldDelete` test, and
 * the two dispatch handlers, `onAddNextButton` and `onDelete`, run against
 * the block-editor store.
 */
module Buttons {
  import opened Js

  /** `ALIGNMENT_MAP`. */
  const ALIGNMENT_MAP: map<string, string> :=
    map["left" := "flex-start", "center" := "center", "right" := "flex-end"]

  /** `buttonsStyle.justifyContent`, i.e. `ALIGNMENT_MAP[align]`; None stands
      for `undefined`, which is also what an unset `align` gives. */
  function JustifyContent(align: Option<string>): (j: Option<string>)
    ensures j.Some? <==> align.Some? && (align.value == "left" || align.value == "center" || align.value == "right")
    ensures align == Some("left") ==> j == Some("flex-start")
    ensures align == Some("center") ==> j == Some("center")
    ensures align == Some("right") ==> j == Some("flex-end")
  {
    if align.Some? && align.value in ALIGNMENT_MAP then Some(ALIGNMENT_MAP[align.value]) else None
  }

  /** Different alignments never produce the same layout. */
  lemma JustifyContentInjective(a: Option<string>, b: Option<string>)
    requires JustifyContent(a).Some? && JustifyContent(a) == JustifyContent(b)
    ensures a == b
  {
  }

  /**
   * The part of the block-editor store the handlers use: the ordered inner
   * block ids of every block that has inner blocks, and the selected block.
   * `getBlocks` and `getBlockOrder` both read `order` (they list the same
   * blocks in the same order), so blocks are identified by their client ids.
   */
  class BlockEditor<Id(==)> {
    var order: map<Id, seq<Id>>
    var selected: Option<Id>

    constructor (order: map<Id, seq<Id>>, selected: Option<Id>)
      ensures this.order == order && this.selected == selected
    {
      this.order := order;
      this.selected := selected;
    }

    /** `getBlockOrder(clientId)`; an unknown block has no inner blocks. */
    function BlockOrder(clientId: Id): seq<Id>
      reads this
    {
      if clientId in order then order[clientId] else []
    }

    /** `replaceInnerBlocks(clientId, blocks, updateSelection)`. */
    method ReplaceInnerBlocks(clientId: Id, blocks: seq<Id>, updateSelection: bool)
      modifies this
      ensures order == old(order)[clientId := blocks]
      ensures selected == old(selected)
    {
      order := order[clientId := blocks];
    }

    /** `selectBlock(clientId)`. */
    method SelectBlock(clientId: Id)
      modifies this
      ensures selected == Some(clientId)
      ensures order == old(order)
    {
      selected := Some(clientId);
    }

    /** `removeBlock(clientId)`: the block goes, with its inner blocks. */
    method RemoveBlock(clientId: Id)
      modifies this
      ensures order == BlockRemoved(old(order), clientId)
      ensures selected == if old(selected).Some? && Removes(old(order), clientId, old(selected).value)
                          then None else old(selected)
    {
      if selected.Some? && Removes(order, clientId, selected.value) {
        selected := None;
      }
      order := BlockRemoved(order, clientId);
    }
  }

  /** Whether removing `clientId` removes block `b`: the block itself and its
      inner blocks. */
  predicate Removes<Id(==)>(order: map<Id, seq<Id>>, clientId: Id, b: Id)
  {
    b == clientId || (clientId in order && b in order[clientId])
  }

  /** The order map after `removeBlock(clientId)`: no entry for the block or
      its inner blocks, and the block no longer listed inside any other. */
  function BlockRemoved<Id(==)>(order: map<Id, seq<Id>>, clientId: Id): (r: map<Id, seq<Id>>)
    ensures forall k :: k in r ==> k in order && !Removes(order, clientId, k)
    ensures forall k :: k in order && !Removes(order, clientId, k) ==> k in r
    ensures forall k :: k in r ==> clientId !in r[k]
    ensures forall k :: k in r ==> r[k] == Without(order[k], clientId)
    ensures forall k :: k in r ==> multiset(r[k]) == multiset(order[k])[clientId := 0]
  {
    map k | k in order && !Removes(order, clientId, k) :: Without(order[k], clientId)
  }

  /** `shouldDelete`: the container holds exactly one button. */
  function ShouldDelete<Id(==)>(editor: BlockEditor<Id>, clientId: Id): (b: bool)
    reads editor
    ensures b <==> editor.BlockOrder(clientId) != [] && editor.BlockOrder(clientId)[1..] == []
  {
    |editor.BlockOrder(clientId)| == 1
  }

  /** Where the next button goes: directly after the first occurrence of the
      selected button, or at the end when it is not among the children. */
  function NextButtonPosition<Id(==)>(children: seq<Id>, selectedId: Id): (k: nat)
    ensures k <= |children|
    ensures selectedId !in children ==> k == |children|
    ensures selectedId in children ==>
              0 < k && children[k - 1] == selectedId && selectedId !in children[..k - 1]
  {
    var i := FindIndex(children, b => b == selectedId);
    if i == -1 then |children| else i + 1
  }

  /** The children after `onAddNextButton`: `inserted` placed at the
      position above, all other children in their old order. */
  function WithNextButton<Id(==)>(children: seq<Id>, selectedId: Id, inserted: Id): (r: seq<Id>)
    ensures |r| == |children| + 1
    ensures r[NextButtonPosition(children, selectedId)] == inserted
    ensures RemoveAt(r, NextButtonPosition(children, selectedId)) == children
  {
    InsertAt(children, NextButtonPosition(children, selectedId), inserted)
  }

  /** `onAddNextButton(selectedId)`, with `insertedBlock` the client id of
      the block that `createBlock('core/button')` returns. */
  method OnAddNextButton<Id(==)>(editor: BlockEditor<Id>, clientId: Id, selectedId: Id, insertedBlock: Id)
    modifies editor
    ensures editor.order == old(editor.order)[clientId := WithNextButton(old(editor.BlockOrder(clientId)), selectedId, insertedBlock)]
    ensures editor.selected == Some(insertedBlock)
  {
    var innerBlocks := editor.BlockOrder(clientId);
    var order := editor.BlockOrder(clientId);
    var selectedButtonIndex := FindIndex(order, i => i == selectedId);
    var index := if selectedButtonIndex == -1 then |order| + 1 else selectedButtonIndex;
    innerBlocks := SpliceInsert(innerBlocks, index + 1, insertedBlock);
    assert SpliceStart(|order|, index + 1) == NextButtonPosition(order, selectedId);
    editor.ReplaceInnerBlocks(clientId, innerBlocks, true);
    editor.SelectBlock(insertedBlock);
  }

  /** `onDelete()`: the Buttons container itself is removed. */
  method OnDelete<Id(==)>(editor: BlockEditor<Id>, clientId: Id)
    modifies editor
    ensures editor.order == BlockRemoved(old(editor.order), clientId)
    ensures editor.selected == if old(editor.selected).Some? && Removes(old(editor.order), clientId, old(editor.selected).value)
                               then None else old(editor.selected)
  {
    editor.RemoveBlock(clientId);
  }

  /** With the selected button at index `i`, the new button sits at `i + 1`
      and everything else stays on its side of it. */
  lemma NextButtonAfterSelected<Id>(children: seq<Id>, selectedId: Id, inserted: Id, i: nat)
    requires i < |children| && children[i] == selectedId && selectedId !in children[..i]
    ensures WithNextButton(children, selectedId, inserted) == children[..i + 1] + [inserted] + children[i + 1..]
  {
    var k := NextButtonPosition(children, selectedId);
    assert k == i + 1;
    var r := WithNextButton(children, selectedId, inserted);
    assert r[..k] == children[..k];
    assert r[k + 1..] == children[k..];
  }

  /** A selected id that is not a child of the container: the new button is
      appended. */
  lemma NextButtonAppended<Id>(children: seq<Id>, selectedId: Id, inserted: Id)
    requires selectedId !in children
    ensures WithNextButton(children, selectedId, inserted) == children + [inserted]
  {
    var r := WithNextButton(children, selectedId, inserted);
    assert r[..|children|] == children;
  }

  /** Two buttons with the first selected: adding one gives [first, new,
      second], and the new one is selected. */
  method AddNextButtonBetweenTwo<Id(==)>(editor: BlockEditor<Id>, clientId: Id, b1: Id, b2: Id, inserted: Id)
    requires editor.BlockOrder(clientId) == [b1, b2]
    modifies editor
    ensures editor.BlockOrder(clientId) == [b1, inserted, b2]
    ensures editor.selected == Some(inserted)
  {
    NextButtonAfterSelected([b1, b2], b1, inserted, 0);
    OnAddNextButton(editor, clientId, b1, inserted);
  }

  /** The store is a tree: a block is listed inside at most one parent. */
  predicate ListedOnce<Id(==)>(order: map<Id, seq<Id>>)
  {
    forall p, q, x :: p in order && q in order && x in order[p] && x in order[q] ==> p == q
  }

  /** When `shouldDelete` holds, `onDelete` removes the container and its
      one button, not just the button: neither keeps an entry, and in a
      tree-shaped store neither is listed inside any remaining block. */
  lemma DeleteSingleButtonContainer<Id>(editor: BlockEditor<Id>, clientId: Id)
    requires ShouldDelete(editor, clientId) && ListedOnce(editor.order)
    ensures var r := BlockRemoved(editor.order, clientId);
            var b := editor.BlockOrder(clientId)[0];
            && clientId !in r && b !in r
            && (forall k :: k in r ==> k in editor.order && k != b && k != clientId && clientId !in r[k] && b !in r[k])
  {
    assert clientId in editor.order;
    var r := BlockRemoved(editor.order, clientId);
    var b := editor.BlockOrder(clientId)[0];
    assert b in editor.order[clientId];
    forall k | k in r
      ensures b !in r[k]
    {
      assert b !in editor.order[k];
      assert multiset(r[k]) == multiset(editor.order[k])[clientId := 0];
      assert multiset(r[k])[b] == 0;
    }
  }
}
