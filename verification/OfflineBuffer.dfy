/** The drop-oldest ring that keeps telemetry while the radio link is down, and the deque it must agree with. */
module OfflineBuffer {
  import opened Words
  import opened VehicleData

  const OB_CAPACITY := 75

  /** The observable content after appending `x` to a deque that drops its oldest entry when full. */
  function DequePush<T>(capacity: int, items: seq<T>, x: T): (r: seq<T>)
    requires capacity != 0 || items != []
  {
    (if |items| == capacity then items[1..] else items) + [x]
  }

  /** The test bench's deque. A capacity of zero makes `popleft` raise on an empty deque. */
  class OfflineBufferSim<T> {
    const capacity: int
    var items: seq<T>

    constructor (capacity: int)
      ensures this.capacity == capacity && items == []
    {
      this.capacity := capacity;
      items := [];
    }

    method Push(item: T) returns (raised: bool)
      modifies this
      ensures raised <==> capacity == 0 && old(items) == []
      ensures raised ==> items == old(items)
      ensures !raised ==> items == DequePush(capacity, old(items), item)
    {
      if |items| == capacity {
        if items == [] {
          return true;
        }
        items := items[1..];
      }
      items := items + [item];
      raised := false;
    }

    method DropFront() returns (ok: bool)
      modifies this
      ensures ok <==> old(items) != []
      ensures items == if ok then old(items)[1..] else old(items)
    {
      if items == [] {
        return false;
      }
      items := items[1..];
      ok := true;
    }
  }

  /** The `count` entries of a circular store that start at `head`. */
  ghost function Window<T>(store: seq<T>, head: nat, count: nat): (s: seq<T>)
    requires head < |store| && count <= |store|
    ensures |s| == count
  {
    if head + count <= |store| then store[head..head + count]
    else store[head..] + store[..head + count - |store|]
  }

  /** The circular position `offset` places after `head`. */
  function Wrap(n: nat, head: nat, offset: nat): (i: nat)
    requires head < n && offset <= n
    ensures i < n
  {
    if head + offset < n then head + offset else head + offset - n
  }

  lemma WindowAppend<T>(store: seq<T>, head: nat, count: nat, x: T)
    requires head < |store| && count < |store|
    ensures Window(store[Wrap(|store|, head, count) := x], head, count + 1) == Window(store, head, count) + [x]
  {
    var n := |store|;
    var tail := Wrap(n, head, count);
    var after := store[tail := x];
    if head + count < n {
      assert after[head..head + count] == store[head..head + count];
    } else {
      assert after[head..] == store[head..];
      assert after[..tail + 1] == store[..tail] + [x];
      assert after[head..] + after[..tail + 1] == store[head..] + store[..tail] + [x];
    }
  }

  lemma WindowDropFront<T>(store: seq<T>, head: nat, count: nat)
    requires head < |store| && 0 < count <= |store|
    ensures Window(store, Wrap(|store|, head, 1), count - 1) == Window(store, head, count)[1..]
  {
  }

  class Ring {
    const buf: array<TelemetryData>
    var head: nat
    var tail: nat
    var count: nat

    ghost predicate Valid()
      reads this
    {
      && buf.Length == OB_CAPACITY
      && head < OB_CAPACITY && tail < OB_CAPACITY && count <= OB_CAPACITY
      && tail == Wrap(OB_CAPACITY, head, count)
    }

    ghost function Contents(): (s: seq<TelemetryData>)
      requires Valid()
      reads this, buf
      ensures |s| == count
    {
      Window(buf[..], head, count)
    }

    constructor ()
      ensures Valid() && Contents() == [] && fresh(buf)
    {
      buf := new TelemetryData[OB_CAPACITY](_ => ZERO_DATA);
      head, tail, count := 0, 0, 0;
    }

    method Reset()
      requires buf.Length == OB_CAPACITY
      modifies this
      ensures Valid() && Contents() == []
    {
      head, tail, count := 0, 0, 0;
    }

    method Push(data: TelemetryData) returns (ok: bool)
      requires Valid()
      modifies this, buf
      ensures Valid() && ok
      ensures Contents() == DequePush(OB_CAPACITY, old(Contents()), data)
    {
      if count == OB_CAPACITY {
        DropOldest();
      }
      Append(data);
      ok := true;
    }

    /** Writes behind the youngest entry of a ring that has room. */
    method Append(data: TelemetryData)
      requires Valid() && count < OB_CAPACITY
      modifies this`tail, this`count, buf
      ensures Valid() && Contents() == old(Contents()) + [data]
    {
      WindowAppend(buf[..], head, count, data);
      ghost var store := buf[..];
      buf[tail] := data;
      assert buf[..] == store[tail := data];
      tail := (tail + 1) % OB_CAPACITY;
      count := count + 1;
    }

    /** Advances the head over the oldest entry. */
    method DropOldest()
      requires Valid() && count > 0
      modifies this`head, this`count
      ensures Valid() && Contents() == old(Contents())[1..]
    {
      WindowDropFront(buf[..], head, count);
      head := (head + 1) % OB_CAPACITY;
      count := count - 1;
    }

    method Pop() returns (ok: bool, out: TelemetryData)
      requires Valid()
      modifies this
      ensures Valid()
      ensures ok <==> old(Contents()) != []
      ensures ok ==> out == old(Contents())[0] && Contents() == old(Contents())[1..]
      ensures !ok ==> Contents() == old(Contents())
    {
      if count == 0 {
        return false, ZERO_DATA;
      }
      out := buf[head];
      DropOldest();
      ok := true;
    }

    method Peek() returns (ok: bool, out: TelemetryData)
      requires Valid()
      ensures ok <==> Contents() != []
      ensures ok ==> out == Contents()[0]
    {
      if count == 0 {
        return false, ZERO_DATA;
      }
      return true, buf[head];
    }

    method DropFront() returns (ok: bool)
      requires Valid()
      modifies this
      ensures Valid()
      ensures ok <==> old(Contents()) != []
      ensures Contents() == if ok then old(Contents())[1..] else old(Contents())
    {
      if count == 0 {
        return false;
      }
      DropOldest();
      ok := true;
    }

    method Count() returns (n: nat)
      requires Valid()
      ensures n == |Contents()|
    {
      n := count;
    }
  }
}
