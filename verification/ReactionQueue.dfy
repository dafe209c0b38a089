/** The linked-list queue of js/secsdk-lastest.umd.js: `add` appends an entry, `get` takes the first. */
module ReactionQueue {
  import opened Wrappers

  class Entry<T> {
    const item: T
    var next: Entry?<T>

    constructor (item: T)
      ensures this.item == item && this.next == null
    {
      this.item := item;
      this.next := null;
    }
  }

  class Queue<T> {
    var head: Entry?<T>
    var tail: Entry?<T>
    ghost var entries: seq<Entry<T>>   // the entries from head to tail
    ghost var contents: seq<T>         // the items they hold

    ghost predicate Valid()
      reads this, entries
    {
      && (entries == [] ==> head == null && tail == null)
      && (entries != [] ==> head == entries[0] && tail == entries[|entries| - 1] && tail.next == null)
      && (forall i, j :: 0 <= i < j < |entries| ==> entries[i] != entries[j])
      && (forall i {:trigger entries[i].next} :: 0 <= i < |entries| - 1 ==> entries[i].next == entries[i + 1])
      && |contents| == |entries|
      && (forall i :: 0 <= i < |entries| ==> entries[i].item == contents[i])
    }

    constructor ()
      ensures Valid() && contents == [] && entries == []
    {
      head, tail, entries, contents := null, null, [], [];
    }

    method Add(item: T)
      requires Valid()
      modifies this, entries
      ensures Valid() && contents == old(contents) + [item]
      ensures exists e :: fresh(e) && entries == old(entries) + [e]
    {
      var entry := new Entry(item);
      if tail != null {
        tail.next := entry;
      } else {
        head := entry;
      }
      tail := entry;
      entries, contents := entries + [entry], contents + [item];
    }

    method Get() returns (r: Option<T>)
      requires Valid()
      modifies this
      ensures Valid()
      ensures old(contents) == [] ==> r == None && contents == [] && entries == []
      ensures old(contents) != [] ==>
        r == Some(old(contents)[0]) && contents == old(contents)[1..] && entries == old(entries)[1..]
    {
      var entry := head;
      if entry != null {
        head := entry.next;
        if head == null { tail := null; }
        entries, contents := entries[1..], contents[1..];
        return Some(entry.item);
      }
      return None;
    }
  }
}
