// The two pieces of the editor's own data structures that the V8 bridge
// re-implements (if_v8/if_v8.cpp): appending an item to a doubly-linked
// list, and looking a key up in a dictionary through the editor's hash
// table, whose hash_find is a parameter here.
module IfV8 {
  import opened CLib

  // ------------------------------------------------------------------ lists

  /** listitem_T: the two links of an item; its value is left out. */
  class ListItem {
    var next: ListItem?
    var prev: ListItem?

    constructor ()
      ensures next == null && prev == null
    {
      next := null;
      prev := null;
    }
  }

  /** list_T: the first and last item and the item count. */
  class List {
    var first: ListItem?
    var last: ListItem?
    var len: int
    /** The items from first to last. */
    ghost var items: seq<ListItem>

    /**
     * The links agree with `items`: `lv_first`/`lv_last` are its ends (NULL
     * when empty), each `li_prev`/`li_next` is its neighbour (NULL past an
     * end), no item occurs twice, and `lv_len` is the count.
     */
    ghost predicate Valid()
      reads this, items
    {
      len == |items| &&
      (items == [] ==> first == null && last == null) &&
      (items != [] ==> first == items[0] && last == items[|items| - 1]) &&
      (forall i, j :: 0 <= i < j < |items| ==> items[i] != items[j]) &&
      (forall i :: 0 <= i < |items| ==> (i == 0 ==> items[i].prev == null) && (0 < i ==> items[i].prev == items[i - 1])) &&
      (forall i :: 0 <= i < |items| ==>
        (i == |items| - 1 ==> items[i].next == null) && (i < |items| - 1 ==> items[i].next == items[i + 1]))
    }

    constructor ()
      ensures Valid() && items == []
    {
      first := null;
      last := null;
      len := 0;
      items := [];
    }

    /**
     * list_append: an empty list gets the item as its first and last, any
     * other list has it linked after its last item; the count grows by one
     * and the item ends the list.
     */
    method Append(item: ListItem)
      requires Valid() && item !in items
      modifies this, item, last
      ensures Valid()
      ensures items == old(items) + [item]
      ensures len == old(len) + 1
      ensures last == item && item.next == null && item.prev == old(last)
      ensures first == if old(last) == null then item else old(first)
      ensures old(last) != null ==> old(last).next == item
    {
      if last == null {
        first := item;
        last := item;
        item.prev := null;
      } else {
        last.next := item;
        item.prev := last;
        last := item;
      }
      len := len + 1;
      item.next := null;
      ghost var was := items;
      items := items + [item];
      assert forall k :: 0 <= k < |was| ==> items[k] == was[k] && items[k] != item;
      assert forall k :: 0 <= k < |was| ==> items[k].prev == old(was[k].prev);
    }

    /**
     * The walk `for (curr = lv_first; curr != NULL; curr = curr->li_next)`
     * of the conversion to a JavaScript array meets the items in order.
     */
    method Walk() returns (visited: seq<ListItem>)
      requires Valid()
      ensures visited == items
    {
      visited := [];
      var curr := first;
      ghost var i := 0;
      while curr != null
        invariant 0 <= i <= |items|
        invariant visited == items[..i]
        invariant curr == if i == |items| then null else items[i]
        decreases |items| - i
      {
        assert items[..i + 1] == items[..i] + [curr];
        visited := visited + [curr];
        curr := curr.next;
        i := i + 1;
      }
    }
  }

  // ------------------------------------------------------------------ dictionaries

  /** dictitem_T: the key stored inside the item; the value is left out. */
  datatype DictItem = DictItem(key: string)

  /** hashitem_T's key: NULL, the removed marker, or the key inside a dictitem. */
  datatype HashKey = NullKey | RemovedKey | ItemKey(item: DictItem)

  datatype HashItem = HashItem(hash: int, key: HashKey)

  /** HASHITEM_EMPTY: a NULL key or the removed marker. */
  predicate HashItemEmpty(hi: HashItem)
  {
    hi.key == NullKey || hi.key == RemovedKey
  }

  /** Keys this long are copied to the heap instead of the stack buffer. */
  const AKEYLEN: int := 200

  /**
   * The key looked up: the whole string for a negative `len`, otherwise at
   * most its first `len` characters, as vim_strnsave and vim_strncpy copy.
   */
  function LookupKey(key: string, len: int): (akey: string)
    ensures akey <= key
    ensures len < 0 ==> akey == key
    ensures len >= 0 ==> |akey| == if len < |key| then len else |key|
  {
    if len < 0 then key else key[..if len < |key| then len else |key|]
  }

  /**
   * dict_find: the key is copied (failing when the heap copy cannot be
   * made) and handed to `hashFind`; an empty slot gives NULL, any other the
   * dictitem its key lies in.
   */
  function DictFind(hashFind: string -> HashItem, key: string, len: int, allocOk: bool): (r: Option<DictItem>)
    ensures len >= AKEYLEN && !allocOk ==> r.None?
    ensures r.Some? ==> hashFind(LookupKey(key, len)).key == ItemKey(r.value)
  {
    if len >= AKEYLEN && !allocOk then None
    else
      var hi := hashFind(LookupKey(key, len));
      if HashItemEmpty(hi) then None else Some(hi.key.item)
  }

  /** A hash_find that returns either an empty slot or the item holding the key asked for. */
  ghost predicate FindsOwnKey(hashFind: string -> HashItem)
  {
    forall k :: hashFind(k).key.ItemKey? ==> hashFind(k).key.item.key == k
  }

  /**
   * What dict_find answers: nothing for a failed copy or an empty or
   * removed slot, and otherwise the item in the slot, which carries the key
   * looked up when hash_find keeps its promise.
   */
  lemma {:induction false} DictFindAnswers(hashFind: string -> HashItem, key: string, len: int, allocOk: bool)
    ensures var hi := hashFind(LookupKey(key, len));
      DictFind(hashFind, key, len, allocOk).None? <==> (len >= AKEYLEN && !allocOk) || HashItemEmpty(hi)
    ensures var hi := hashFind(LookupKey(key, len));
      DictFind(hashFind, key, len, allocOk).Some? ==> hi.key == ItemKey(DictFind(hashFind, key, len, allocOk).value)
    ensures FindsOwnKey(hashFind) && DictFind(hashFind, key, len, allocOk).Some? ==>
      DictFind(hashFind, key, len, allocOk).value.key == LookupKey(key, len)
  {
  }

  /**
   * A hash_find over a dictionary holding the items of `m`: the slot of a
   * key of `m` holds its item, and the slot of any other key is empty.
   */
  ghost predicate HashesMap(hashFind: string -> HashItem, m: map<string, DictItem>)
  {
    forall k :: (k in m ==> hashFind(k).key == ItemKey(m[k])) && (k !in m ==> HashItemEmpty(hashFind(k)))
  }

  /**
   * Over such a dictionary, dict_find answers the item of the key looked up
   * when the dictionary has it and the copy of the key succeeded, and
   * nothing otherwise.
   */
  lemma {:induction false} DictFindInMap(hashFind: string -> HashItem, m: map<string, DictItem>, key: string, len: int, allocOk: bool)
    requires HashesMap(hashFind, m)
    ensures var k := LookupKey(key, len);
      DictFind(hashFind, key, len, allocOk) == if (len >= AKEYLEN && !allocOk) || k !in m then None else Some(m[k])
  {
    var k := LookupKey(key, len);
    assert (k in m ==> hashFind(k).key == ItemKey(m[k])) && (k !in m ==> HashItemEmpty(hashFind(k)));
  }

  /** A length below the buffer size looks up the same key as the truncated string. */
  lemma {:induction false} DictFindTruncates(hashFind: string -> HashItem, key: string, len: int, allocOk: bool)
    requires 0 <= len
    ensures DictFind(hashFind, key, len, true) == DictFind(hashFind, LookupKey(key, len), -1, allocOk)
  {
  }
}
