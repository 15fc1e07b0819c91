/**
 A first-in first-out queue of linked messages with a pointer to the cell that ends it.
 */
module MessageQueue {

  class Message<T> {
    const payload: T
    var next: Message?<T>

    constructor (payload: T)
      ensures this.payload == payload
    {
      this.payload := payload;
      next := null;
    }
  }

  /** The pointer cell that the next message goes to: the head of the queue or the link of a message. */
  datatype Cell<T> = Head | LinkOf(msg: Message<T>)

  class Queue<T> {
    var first: Message?<T>
    var last: Cell<T>
    ghost var contents: seq<Message<T>>

    /** The links run through the messages in order, and `last` is the cell at their end. */
    ghost predicate Valid()
      reads this, contents
    {
      && (forall i, j :: 0 <= i < j < |contents| ==> contents[i] != contents[j])
      && first == At(contents, 0)
      && (forall i {:trigger contents[i]} :: 0 <= i < |contents| ==> contents[i].next == At(contents, i + 1))
      && last == if contents == [] then Head else LinkOf(contents[|contents| - 1])
    }

    constructor ()
      ensures Valid() && contents == []
    {
      first, last, contents := null, Head, [];
    }

    method Add(msg: Message<T>)
      requires Valid() && msg !in contents
      modifies this, contents, msg
      ensures Valid() && contents == old(contents) + [msg]
    {
      msg.next := null;
      match last {
        case Head => first := msg;
        case LinkOf(m) => m.next := msg;
      }
      last := LinkOf(msg);
      contents := contents + [msg];
    }

    method IsEmpty() returns (r: bool)
      requires Valid()
      ensures r <==> contents == []
    {
      r := first == null;
    }

    method Remove() returns (head: Message<T>)
      requires Valid() && contents != []
      modifies this
      ensures Valid() && head == old(contents[0]) && contents == old(contents[1..])
    {
      head := first;
      if head.next == null {
        first := null;
        last := Head;
      } else {
        first := head.next;
      }
      contents := contents[1..];
    }
  }

  ghost function At<T>(s: seq<Message<T>>, i: nat): Message?<T> { if i < |s| then s[i] else null }
}
