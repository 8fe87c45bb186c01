/** The bounded request queue: a ring buffer that behaves as a FIFO sequence. */
module RequestQueue {

  type Socket = int
  const INVALID_SOCKET: Socket := -1

  /** Slot i places after head in a ring of the given capacity. */
  function Slot(head: nat, i: nat, capacity: nat): (r: nat)
    requires head < capacity && i <= capacity
    ensures r < capacity
  {
    if head + i < capacity then head + i else head + i - capacity
  }

  lemma SlotIsRemainder(x: nat, capacity: nat)
    requires 0 < capacity && x < capacity
    ensures (x + 1) % capacity == Slot(x, 1, capacity)
  {
  }

  class Queue {
    const items: array<Socket>
    var head: nat
    var tail: nat
    var count: nat
    var shuttingDown: bool

    ghost predicate Valid()
      reads this
    {
      && head < items.Length && tail < items.Length && count <= items.Length
      && tail == Slot(head, count, items.Length)
    }

    /** The queued sockets, oldest first. */
    ghost function Contents(): (s: seq<Socket>)
      requires Valid()
      reads this, items
    {
      seq(count, i requires 0 <= i < count && Valid() reads this, items => items[Slot(head, i, items.Length)])
    }

    constructor (capacity: nat)
      requires capacity > 0
      ensures Valid() && fresh(items) && items.Length == capacity && Contents() == [] && !shuttingDown
    {
      items := new Socket[capacity];
      head, tail, count, shuttingDown := 0, 0, 0, false;
    }

    /** Creates a queue; a queue without room is refused. */
    static method Init(capacity: nat) returns (queue: Queue?)
      ensures queue == null <==> capacity == 0
      ensures queue != null ==>
                && fresh(queue) && queue.Valid() && queue.items.Length == capacity
                && queue.Contents() == [] && !queue.shuttingDown
    {
      if capacity == 0 {
        return null;
      }
      queue := new Queue(capacity);
    }

    method Shutdown()
      requires Valid()
      modifies this`shuttingDown
      ensures Valid() && shuttingDown && Contents() == old(Contents())
    {
      shuttingDown := true;
    }

    /** Appends a socket unless the queue is full or closing. */
    method Push(socket: Socket) returns (pushed: bool)
      requires Valid()
      modifies this`tail, this`count, items
      ensures Valid()
      ensures pushed <==> !shuttingDown && |old(Contents())| < items.Length
      ensures Contents() == if pushed then old(Contents()) + [socket] else old(Contents())
    {
      pushed := false;
      if !shuttingDown && count < items.Length {
        items[tail] := socket;
        SlotIsRemainder(tail, items.Length);
        tail := (tail + 1) % items.Length;
        count := count + 1;
        pushed := true;
      }
    }

    /** What a worker takes once its wait is over: the oldest socket, or none when the queue is closing and empty. */
    method Take() returns (socket: Socket)
      requires Valid() && (count > 0 || shuttingDown)
      modifies this`head, this`count
      ensures Valid()
      ensures if old(Contents()) == [] then socket == INVALID_SOCKET && Contents() == []
              else socket == old(Contents())[0] && Contents() == old(Contents())[1..]
    {
      socket := INVALID_SOCKET;
      if count > 0 {
        ghost var before := Contents();
        socket := items[head];
        assert socket == before[0];
        SlotIsRemainder(head, items.Length);
        head := (head + 1) % items.Length;
        count := count - 1;
        assert Contents() == before[1..];
      }
    }
  }
}
