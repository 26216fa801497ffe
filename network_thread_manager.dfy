/**
 * The network worker: a receive loop that takes frames off the connection and appends them,
 * unchanged, to the service queue the game manager drains. The queue is used sequentially
 * here; the receive loop's iterations are a method of their own so that a scheduler can
 * interleave them with game ticks.
 */
module Network {
  import opened MsgPackFormat

  /** A serialized message as the transport delivers it. */
  type Frame = Bytes

  /**
   * The transport as the client sees it. Its implementation is not part of this model:
   * whether the connection is up and which frames the server sends are inputs, supplied
   * through Connect, Arrive and Close.
   */
  class NetworkManager {
    var isConnected: bool
    /** Frames the server has sent that Receive has not returned yet, oldest first. */
    var pending: seq<Frame>
    /** Every frame Receive has returned, in order. */
    ghost var delivered: seq<Frame>

    constructor ()
      ensures !isConnected && pending == [] && delivered == []
    {
      isConnected := false;
      pending := [];
      delivered := [];
    }

    /** Connect(ip, port); whether the server accepts is the input `accepted`. */
    method Connect(ip: string, port: int, accepted: bool)
      modifies this
      ensures isConnected == accepted
      ensures pending == old(pending) && delivered == old(delivered)
    {
      isConnected := accepted;
    }

    /** The server sends `frame`. */
    method Arrive(frame: Frame)
      modifies this
      ensures pending == old(pending) + [frame]
      ensures isConnected == old(isConnected) && delivered == old(delivered)
    {
      pending := pending + [frame];
    }

    /** The connection drops. */
    method Close()
      modifies this
      ensures !isConnected
      ensures pending == old(pending) && delivered == old(delivered)
    {
      isConnected := false;
    }

    /** Receive: the oldest frame not yet returned. A Receive that would block is not taken. */
    method Receive() returns (frame: Frame)
      requires isConnected && pending != []
      modifies this
      ensures frame == old(pending[0])
      ensures pending == old(pending[1..]) && delivered == old(delivered) + [frame]
      ensures isConnected
    {
      frame := pending[0];
      pending := pending[1..];
      delivered := delivered + [frame];
    }
  }

  /**
   * The ConcurrentQueue of frames. The ghost histories record everything that went in and
   * came out, so that `Valid` states first-in first-out order.
   */
  class ServiceQueue {
    var items: seq<Frame>
    ghost var enqueued: seq<Frame>
    ghost var dequeued: seq<Frame>

    /** What came out, followed by what is still queued, is exactly what went in. */
    ghost predicate Valid()
      reads this
    {
      dequeued + items == enqueued
    }

    constructor ()
      ensures Valid() && items == [] && enqueued == [] && dequeued == []
    {
      items := [];
      enqueued := [];
      dequeued := [];
    }

    method Enqueue(frame: Frame)
      requires Valid()
      modifies this
      ensures Valid()
      ensures items == old(items) + [frame]
      ensures enqueued == old(enqueued) + [frame] && dequeued == old(dequeued)
    {
      items := items + [frame];
      enqueued := enqueued + [frame];
    }

    /** TryDequeue: the head of the queue, if there is one. */
    method TryDequeue() returns (ok: bool, frame: Frame)
      requires Valid()
      modifies this
      ensures Valid() && enqueued == old(enqueued)
      ensures ok <==> old(items) != []
      ensures ok ==> frame == old(items[0]) && items == old(items[1..]) && dequeued == old(dequeued) + [frame]
      ensures !ok ==> items == old(items) && dequeued == old(dequeued)
    {
      if items == [] {
        return false, [];
      }
      frame := items[0];
      assert dequeued + [frame] + items[1..] == dequeued + items;
      items := items[1..];
      dequeued := dequeued + [frame];
      ok := true;
    }
  }

  /** The worker thread; its body is the owner's receive loop. */
  class NetworkThread {
    const owner: NetworkThreadManager
    var started: bool
    var isBackground: bool

    constructor (owner: NetworkThreadManager)
      ensures this.owner == owner && !started && !isBackground
    {
      this.owner := owner;
      started := false;
      isBackground := false;
    }

    method Start()
      modifies this
      ensures started && isBackground == old(isBackground)
    {
      started := true;
    }
  }

  /** The sleep calls of `n` loop iterations: none when the configured time is not positive. */
  function Pauses(sleepTime: int, n: nat): (r: seq<int>)
    ensures sleepTime <= 0 ==> r == []
    ensures sleepTime > 0 ==> |r| == n && forall i :: 0 <= i < n ==> r[i] == sleepTime
  {
    if sleepTime <= 0 || n == 0 then [] else Pauses(sleepTime, n - 1) + [sleepTime]
  }

  class NetworkThreadManager {
    var serviceQueue: ServiceQueue?
    var networkManager: NetworkManager?
    /** The serialized `_sleepTime` field, in milliseconds. */
    const sleepTime: int
    /** The Thread.Sleep calls the receive loop has made, in order. */
    var pauses: seq<int>

    constructor (sleepTime: int)
      ensures serviceQueue == null && networkManager == null
      ensures this.sleepTime == sleepTime && pauses == []
    {
      serviceQueue := null;
      networkManager := null;
      this.sleepTime := sleepTime;
      pauses := [];
    }

    /** A thread has been created: there is a transport to read and a queue to fill. */
    ghost predicate Ready()
      reads this, serviceQueue
    {
      serviceQueue != null && networkManager != null && serviceQueue.Valid()
    }

    /**
     * Uses the given transport, or a fresh one when none is given, and installs a new empty
     * queue, discarding the old one and anything still in it.
     */
    method CreateNetworkThread(networkManager: NetworkManager?) returns (thread: NetworkThread)
      modifies this
      ensures Ready()
      ensures networkManager != null ==> this.networkManager == networkManager
      ensures networkManager == null ==>
                fresh(this.networkManager) && !this.networkManager.isConnected &&
                this.networkManager.pending == [] && this.networkManager.delivered == []
      ensures fresh(serviceQueue) && serviceQueue.items == [] && serviceQueue.enqueued == [] && serviceQueue.dequeued == []
      ensures fresh(thread) && thread.owner == this && !thread.started && !thread.isBackground
      ensures pauses == old(pauses)
    {
      if networkManager == null {
        this.networkManager := new NetworkManager();
      } else {
        this.networkManager := networkManager;
      }
      serviceQueue := new ServiceQueue();
      thread := new NetworkThread(this);
    }

    /** One iteration of the receive loop: receive, enqueue the frame as is, pause if configured. */
    method ReceiveAndEnqueue()
      requires Ready() && networkManager.isConnected && networkManager.pending != []
      modifies this`pauses, serviceQueue, networkManager
      ensures Ready() && networkManager.isConnected
      ensures serviceQueue.items == old(serviceQueue.items) + [old(networkManager.pending[0])]
      ensures serviceQueue.enqueued == old(serviceQueue.enqueued) + [old(networkManager.pending[0])]
      ensures serviceQueue.dequeued == old(serviceQueue.dequeued)
      ensures networkManager.pending == old(networkManager.pending[1..])
      ensures networkManager.delivered == old(networkManager.delivered) + [old(networkManager.pending[0])]
      ensures pauses == old(pauses) + Pauses(sleepTime, 1)
    {
      var receivedData := networkManager.Receive();
      serviceQueue.Enqueue(receivedData);
      if sleepTime <= 0 {
        return;
      }
      pauses := pauses + [sleepTime];
    }

    /**
     * The receive loop run without interruption: while connected, every frame the server has
     * sent is appended to the queue in order. The loop stops where the next Receive would block.
     */
    method CheckReceivingAndEnqueueServices()
      requires Ready()
      modifies this`pauses, serviceQueue, networkManager
      ensures Ready() && networkManager.isConnected == old(networkManager.isConnected)
      ensures serviceQueue.dequeued == old(serviceQueue.dequeued)
      ensures old(networkManager.isConnected) ==>
                && serviceQueue.items == old(serviceQueue.items) + old(networkManager.pending)
                && serviceQueue.enqueued == old(serviceQueue.enqueued) + old(networkManager.pending)
                && networkManager.pending == []
                && networkManager.delivered == old(networkManager.delivered) + old(networkManager.pending)
                && pauses == old(pauses) + Pauses(sleepTime, |old(networkManager.pending)|)
      ensures !old(networkManager.isConnected) ==>
                && serviceQueue.items == old(serviceQueue.items)
                && serviceQueue.enqueued == old(serviceQueue.enqueued)
                && networkManager.pending == old(networkManager.pending)
                && networkManager.delivered == old(networkManager.delivered)
                && pauses == old(pauses)
    {
      ghost var incoming := networkManager.pending;
      ghost var k: nat := 0;
      while networkManager.isConnected && networkManager.pending != []
        invariant Ready() && networkManager.isConnected == old(networkManager.isConnected)
        invariant serviceQueue.dequeued == old(serviceQueue.dequeued)
        invariant k <= |incoming| && networkManager.pending == incoming[k..]
        invariant serviceQueue.items == old(serviceQueue.items) + incoming[..k]
        invariant serviceQueue.enqueued == old(serviceQueue.enqueued) + incoming[..k]
        invariant networkManager.delivered == old(networkManager.delivered) + incoming[..k]
        invariant pauses == old(pauses) + Pauses(sleepTime, k)
        invariant !old(networkManager.isConnected) ==> k == 0
        decreases |networkManager.pending|
      {
        assert incoming[..k + 1] == incoming[..k] + [incoming[k]];
        ReceiveAndEnqueue();
        k := k + 1;
      }
      if networkManager.isConnected {
        assert incoming[..k] == incoming;
      }
    }
  }
}
