/**
 * The game manager's side of the message path: on every frame of the game loop, while the
 * connection is up, it makes sure the network thread exists and hands at most one queued
 * frame, with the tag read off its fixed offset, to the game's OnReceivedData handler.
 */
module Game {
  import opened Wrappers
  import opened MsgPackFormat
  import opened Protocol
  import opened Network

  /** One OnReceivedData call: the tag read at the fixed offset and the frame as dequeued. */
  datatype Dispatch = Dispatch(msgType: int, frame: Frame)

  /**
   * The handler call a dequeued frame leads to. A frame shorter than two bytes makes the
   * fixed-offset read throw: the frame is gone from the queue and no handler runs.
   */
  function DispatchOf(frame: Frame): (r: Option<Dispatch>)
    ensures r.Some? <==> |frame| >= 2
    ensures r.Some? ==> r.value.frame == frame && r.value.msgType == frame[1]
  {
    match ReadMsgTypeFromBytes(frame)
    case None => None
    case Some(t) => Some(Dispatch(t, frame))
  }

  /** The handler calls made for the frames dequeued, in this order. */
  function Dispatched(frames: seq<Frame>): seq<Dispatch>
  {
    if frames == [] then []
    else
      var earlier := Dispatched(frames[..|frames| - 1]);
      match DispatchOf(frames[|frames| - 1])
      case None => earlier
      case Some(d) => earlier + [d]
  }

  /** One more dequeued frame adds its handler call, if any, at the end. */
  lemma DispatchedAppend(frames: seq<Frame>, frame: Frame)
    ensures Dispatched(frames + [frame]) == Dispatched(frames) + Dispatched([frame])
  {
    assert (frames + [frame])[..|frames|] == frames;
  }

  /** When every frame is long enough, each one gets exactly one handler call, in queue order. */
  lemma {:induction false} DispatchedInOrder(frames: seq<Frame>)
    requires forall i :: 0 <= i < |frames| ==> |frames[i]| >= 2
    ensures |Dispatched(frames)| == |frames|
    ensures forall i :: 0 <= i < |frames| ==> Dispatched(frames)[i] == Dispatch(frames[i][1], frames[i])
  {
    if frames != [] {
      var init := frames[..|frames| - 1];
      DispatchedInOrder(init);
      assert forall i :: 0 <= i < |frames| - 1 ==> frames[i] == init[i];
    }
  }

  /**
   * What one connected tick does to the queue and to the frames taken from it so far:
   * nothing when the queue is empty, otherwise its head moves to the end of `taken`.
   */
  function Tick(queue: seq<Frame>, taken: seq<Frame>): (r: (seq<Frame>, seq<Frame>))
  {
    if queue == [] then (queue, taken) else (queue[1..], taken + [queue[0]])
  }

  /** `k` connected ticks with no new arrivals. */
  function Ticks(k: nat, queue: seq<Frame>, taken: seq<Frame>): (seq<Frame>, seq<Frame>)
  {
    if k == 0 then (queue, taken)
    else
      var next := Tick(queue, taken);
      Ticks(k - 1, next.0, next.1)
  }

  function Min(a: nat, b: nat): nat
  {
    if a <= b then a else b
  }

  /** After `k` ticks exactly min(k, |queue|) frames have been taken, as a prefix of the queue. */
  lemma {:induction false} TicksTakePrefix(k: nat, queue: seq<Frame>, taken: seq<Frame>)
    ensures Ticks(k, queue, taken) == (queue[Min(k, |queue|)..], taken + queue[..Min(k, |queue|)])
  {
    if k > 0 && queue != [] {
      TicksTakePrefix(k - 1, queue[1..], taken + [queue[0]]);
      assert queue[1..][Min(k - 1, |queue| - 1)..] == queue[Min(k, |queue|)..];
      assert taken + [queue[0]] + queue[1..][..Min(k - 1, |queue| - 1)] == taken + queue[..Min(k, |queue|)];
    } else if k > 0 {
      TicksTakePrefix(k - 1, queue, taken);
    } else {
      assert taken + queue[..0] == taken;
    }
  }

  class GameManager {
    /** The NetworkThreadManager singleton. */
    const threadManager: NetworkThreadManager
    var networkManager: NetworkManager?
    var networkThread: NetworkThread?
    const ip: string
    const port: int
    /** The OnReceivedData calls made so far, in order. */
    var received: seq<Dispatch>
    /** Every frame taken off the service queue, in order. */
    ghost var taken: seq<Frame>

    /**
     * The handler log is the dispatch of the frames taken; before the thread exists nothing
     * has been taken, and afterwards the frames taken are those the current queue gave out.
     */
    ghost predicate Valid()
      reads this, threadManager, threadManager.serviceQueue
    {
      && received == Dispatched(taken)
      && (networkThread == null ==> taken == [])
      && (networkThread != null ==>
            && networkManager != null
            && threadManager.Ready()
            && threadManager.networkManager == networkManager
            && networkThread.owner == threadManager
            && threadManager.serviceQueue.dequeued == taken)
    }

    constructor (threadManager: NetworkThreadManager, ip: string, port: int)
      ensures Valid()
      ensures this.threadManager == threadManager && this.ip == ip && this.port == port
      ensures networkManager == null && networkThread == null && received == []
    {
      this.threadManager := threadManager;
      this.ip := ip;
      this.port := port;
      networkManager := null;
      networkThread := null;
      received := [];
      taken := [];
    }

    method CreateNetworkManager() returns (manager: NetworkManager)
      ensures fresh(manager) && !manager.isConnected && manager.pending == [] && manager.delivered == []
    {
      manager := new NetworkManager();
    }

    /** Start: a new transport, connected to `ip`:`port` if the server accepts. */
    method Start(accepted: bool)
      requires Valid() && networkThread == null
      modifies this
      ensures Valid() && networkThread == null && received == old(received)
      ensures fresh(networkManager) && networkManager.isConnected == accepted
      ensures networkManager.pending == [] && networkManager.delivered == []
    {
      networkManager := CreateNetworkManager();
      networkManager.Connect(ip, port, accepted);
    }

    /** OnReceivedData, the game's handler; the model records the call. */
    method OnReceivedData(msgType: int, receivedData: Frame)
      modifies this`received
      ensures received == old(received) + [Dispatch(msgType, receivedData)]
    {
      received := received + [Dispatch(msgType, receivedData)];
    }

    /** The thread is created, started and made a background thread once; later calls return at once. */
    method CreateNetworkThread()
      requires Valid() && networkManager != null
      modifies this`networkThread, threadManager
      ensures Valid() && networkThread != null
      ensures old(networkThread) != null ==>
                networkThread == old(networkThread) && unchanged(threadManager)
      ensures old(networkThread) == null ==>
                && fresh(networkThread) && networkThread.started && networkThread.isBackground
                && threadManager.networkManager == networkManager
                && fresh(threadManager.serviceQueue) && threadManager.serviceQueue.items == []
                && threadManager.serviceQueue.enqueued == []
                && threadManager.pauses == old(threadManager.pauses)
    {
      if networkThread != null {
        return;
      }
      networkThread := threadManager.CreateNetworkThread(networkManager);
      networkThread.Start();
      networkThread.isBackground := true;
    }

    /** At most one frame: the head of the queue, handed to the handler with its tag. */
    method CheckServiceQueue()
      requires Valid() && networkThread != null
      modifies this`received, this`taken, threadManager.serviceQueue
      ensures Valid() && networkThread != null
      ensures (threadManager.serviceQueue.items, taken) ==
              Tick(old(threadManager.serviceQueue.items), old(taken))
      ensures threadManager.serviceQueue.enqueued == old(threadManager.serviceQueue.enqueued)
      ensures received == old(received) + Dispatched(taken[|old(taken)|..])
    {
      if |threadManager.serviceQueue.items| == 0 {
        assert taken[|taken|..] == [];
        return;
      }
      var ok, receivedData := threadManager.serviceQueue.TryDequeue();
      if !ok {
        return;
      }
      DispatchedAppend(taken, receivedData);
      taken := taken + [receivedData];
      assert taken[|old(taken)|..] == [receivedData];
      var msgType := ReadMsgTypeFromBytes(receivedData);
      if msgType.Some? {
        OnReceivedData(msgType.value, receivedData);
      }
    }

    /**
     * One frame of the game loop. While disconnected nothing happens; otherwise the thread
     * is created if it does not exist yet, and one connected tick runs on the queue.
     */
    method Update()
      requires Valid() && networkManager != null
      modifies this`networkThread, this`received, this`taken, threadManager, threadManager.serviceQueue
      ensures Valid()
      ensures !networkManager.isConnected ==>
                && networkThread == old(networkThread) && received == old(received) && taken == old(taken)
                && unchanged(threadManager)
                && (threadManager.serviceQueue != null ==> unchanged(threadManager.serviceQueue))
      ensures old(networkThread) != null ==> networkThread == old(networkThread)
      ensures networkManager.isConnected ==> networkThread != null
      ensures networkManager.isConnected && old(networkThread) == null ==>
                && fresh(threadManager.serviceQueue) && threadManager.serviceQueue.items == []
                && received == old(received) && taken == old(taken)
      ensures networkManager.isConnected && old(networkThread) != null ==>
                && threadManager.serviceQueue == old(threadManager.serviceQueue)
                && (threadManager.serviceQueue.items, taken) == Tick(old(threadManager.serviceQueue.items), old(taken))
                && threadManager.serviceQueue.enqueued == old(threadManager.serviceQueue.enqueued)
                && received == old(received) + Dispatched(taken[|old(taken)|..])
    {
      if !networkManager.isConnected {
        return;
      }
      CreateNetworkThread();
      CheckServiceQueue();
    }
  }

  /**
   * Dispatch order is enqueue order: the handler has seen exactly the frames at the front
   * of everything the worker enqueued, in that order.
   */
  lemma DispatchOrder(game: GameManager)
    requires game.Valid() && game.networkThread != null
    ensures |game.taken| <= |game.threadManager.serviceQueue.enqueued|
    ensures game.taken == game.threadManager.serviceQueue.enqueued[..|game.taken|]
    ensures game.received == Dispatched(game.threadManager.serviceQueue.enqueued[..|game.taken|])
  {
    var q := game.threadManager.serviceQueue;
    assert q.enqueued[..|q.dequeued|] == q.dequeued;
  }
}
