/**
 * `RealTimeDataProcessor` (js/advanced-features.js): a buffer of at most 1000
 * timestamped samples, and an ordered list of subscriber callbacks to which each
 * processing tick hands the newest sample.
 *
 * Callbacks are opaque identities. Whether a callback throws is given to a tick as the
 * set of callbacks that fail on this sample; what a callback does besides returning or
 * throwing is not modelled. The periodic timer is a handle: a tick is an explicit call
 * of `ProcessData`.
 */
module RealTime {
  import opened Wrappers
  import opened Records
  import Js
  import Window

  /** The identity of a subscribed callback (JavaScript compares callbacks by reference). */
  type Callback = nat

  /** A sample is the producer's object with a `timestamp` property added. */
  type Sample = Record

  /** One call `callback(latestData)` made by a tick, and whether it threw (and was caught and logged). */
  datatype Delivery = Delivery(callback: Callback, sample: Sample, threw: bool)

  datatype Statistics = Statistics(bufferSize: nat, subscriberCount: nat, isProcessing: bool)

  /** `{...data, timestamp}`: the object `addData` stores. */
  function Stamped(data: Record, timestamp: string): (s: Sample)
    ensures Get(s, "timestamp") == Str(timestamp)
    ensures forall key :: key != "timestamp" ==> Get(s, key) == Get(data, key)
  {
    PutGetSame(data, "timestamp", Str(timestamp));
    forall key | key != "timestamp" ensures Get(Put(data, "timestamp", Str(timestamp)), key) == Get(data, key) {
      PutGetOther(data, "timestamp", Str(timestamp), key);
    }
    Put(data, "timestamp", Str(timestamp))
  }

  /** `subscribers` after `unsubscribe(callback)`: the first occurrence is spliced out, if there is one. */
  function RemoveFirst(subscribers: seq<Callback>, callback: Callback): (r: seq<Callback>)
    ensures callback !in subscribers ==> r == subscribers
    ensures callback in subscribers ==>
      var i := Js.IndexOf(subscribers, callback);
      r == subscribers[..i] + subscribers[i + 1..] && multiset(r) == multiset(subscribers) - multiset{callback}
  {
    var index := Js.IndexOf(subscribers, callback);
    if index > -1 then
      assert multiset(Js.RemoveAt(subscribers, index)) == multiset(subscribers) - multiset{callback};
      Js.RemoveAt(subscribers, index)
    else subscribers
  }

  class RealTimeDataProcessor {
    var dataBuffer: seq<Sample>
    const maxBufferSize: nat
    var processingInterval: Option<Js.TimerId>
    var subscribers: seq<Callback>
    /** The intervals the browser is running on this processor's behalf (environment state, not a field of the source). */
    ghost var liveTimers: set<Js.TimerId>

    ghost predicate Valid()
      reads this
    {
      && 1 <= maxBufferSize
      && |dataBuffer| <= maxBufferSize
      && (processingInterval.Some? ==> processingInterval.value in liveTimers)
    }

    constructor ()
      ensures Valid()
      ensures dataBuffer == [] && maxBufferSize == 1000 && processingInterval == None && subscribers == []
      ensures liveTimers == {}
    {
      dataBuffer := [];
      maxBufferSize := 1000;
      processingInterval := None;
      subscribers := [];
      liveTimers := {};
    }

    /**
     * `startProcessing()`: `setInterval` starts a new interval and its handle overwrites the
     * stored one. A second start while running does not stop the first interval.
     */
    method StartProcessing(handle: Js.TimerId)
      requires Valid()
      requires handle !in liveTimers  // setInterval hands out a fresh handle
      modifies this
      ensures Valid()
      ensures processingInterval == Some(handle)
      ensures liveTimers == old(liveTimers) + {handle}
      ensures dataBuffer == old(dataBuffer) && subscribers == old(subscribers)
    {
      processingInterval := Some(handle);
      liveTimers := liveTimers + {handle};
    }

    /** `stopProcessing()`: clears the stored interval, if any; safe to call when not running. */
    method StopProcessing()
      requires Valid()
      modifies this
      ensures Valid()
      ensures processingInterval == None
      ensures old(processingInterval).Some? ==> liveTimers == old(liveTimers) - {old(processingInterval).value}
      ensures old(processingInterval).None? ==> liveTimers == old(liveTimers)
      ensures dataBuffer == old(dataBuffer) && subscribers == old(subscribers)
    {
      if processingInterval.Some? {
        liveTimers := liveTimers - {processingInterval.value};
        processingInterval := None;
      }
    }

    /** `addData(data)`: appends the stamped sample and evicts the oldest one beyond capacity. */
    method AddData(data: Record, timestamp: string)
      requires Valid()
      modifies this
      ensures Valid()
      ensures dataBuffer == Window.PushBounded(old(dataBuffer), Stamped(data, timestamp), maxBufferSize)
      ensures dataBuffer[|dataBuffer| - 1] == Stamped(data, timestamp)
      ensures |old(dataBuffer)| < maxBufferSize ==> dataBuffer == old(dataBuffer) + [Stamped(data, timestamp)]
      ensures |old(dataBuffer)| == maxBufferSize ==> dataBuffer == old(dataBuffer)[1..] + [Stamped(data, timestamp)]
      ensures subscribers == old(subscribers) && processingInterval == old(processingInterval)
      ensures liveTimers == old(liveTimers)
    {
      Window.PushBoundedSpec(dataBuffer, Stamped(data, timestamp), maxBufferSize);
      dataBuffer := dataBuffer + [Stamped(data, timestamp)];
      if |dataBuffer| > maxBufferSize {
        dataBuffer := dataBuffer[1..];
      }
    }

    /**
     * `processData()`, one tick: with an empty buffer nothing happens; otherwise every
     * subscriber, in list order, is called once with the newest sample. A callback that
     * throws is caught and logged and the remaining callbacks still run. The state is not changed.
     */
    method ProcessData(failing: set<Callback>) returns (deliveries: seq<Delivery>)
      requires Valid()
      ensures dataBuffer == [] ==> deliveries == []
      ensures dataBuffer != [] ==> |deliveries| == |subscribers|
      ensures dataBuffer != [] ==> forall i :: 0 <= i < |subscribers| ==>
        deliveries[i] == Delivery(subscribers[i], dataBuffer[|dataBuffer| - 1], subscribers[i] in failing)
    {
      deliveries := [];
      if |dataBuffer| == 0 {
        return;
      }
      var latestData := dataBuffer[|dataBuffer| - 1];
      var i := 0;
      while i < |subscribers|
        invariant 0 <= i <= |subscribers|
        invariant |deliveries| == i
        invariant forall k :: 0 <= k < i ==> deliveries[k] == Delivery(subscribers[k], latestData, subscribers[k] in failing)
      {
        var callback := subscribers[i];
        var threw := callback in failing;  // try { callback(latestData) } catch (error) { console.error(...) }
        deliveries := deliveries + [Delivery(callback, latestData, threw)];
        i := i + 1;
      }
    }

    /** `subscribe(callback)`: appends; duplicates are kept. */
    method Subscribe(callback: Callback)
      requires Valid()
      modifies this
      ensures Valid()
      ensures subscribers == old(subscribers) + [callback]
      ensures dataBuffer == old(dataBuffer) && processingInterval == old(processingInterval)
      ensures liveTimers == old(liveTimers)
    {
      subscribers := subscribers + [callback];
    }

    /** `unsubscribe(callback)`: removes the first occurrence only; no-op when absent. */
    method Unsubscribe(callback: Callback)
      requires Valid()
      modifies this
      ensures Valid()
      ensures subscribers == RemoveFirst(old(subscribers), callback)
      ensures dataBuffer == old(dataBuffer) && processingInterval == old(processingInterval)
      ensures liveTimers == old(liveTimers)
    {
      var index := Js.IndexOf(subscribers, callback);
      if index > -1 {
        subscribers := Js.RemoveAt(subscribers, index);
      }
    }

    /** `getStatistics()`: a read-only snapshot. */
    function GetStatistics(): (stats: Statistics)
      reads this
      requires Valid()
      ensures stats.bufferSize <= maxBufferSize
      ensures stats.bufferSize == |dataBuffer| && stats.subscriberCount == |subscribers|
      ensures stats.isProcessing <==> processingInterval != None
    {
      Statistics(|dataBuffer|, |subscribers|, processingInterval != None)
    }
  }

  /** Subscribing `a` twice and unsubscribing it once leaves one subscription, at the position of the second. */
  lemma UnsubscribeRemovesOnlyFirst(subscribers: seq<Callback>, a: Callback)
    requires a !in subscribers
    ensures RemoveFirst(subscribers + [a] + [a], a) == subscribers + [a]
  {
    var s := subscribers + [a] + [a];
    assert Js.IndexOf(s, a) == |subscribers| by {
      assert s[|subscribers|] == a;
      assert s[..|subscribers|] == subscribers;
    }
  }

  /**
   * Starting twice and stopping once: the processor reports that it is not processing,
   * yet the first interval is still running and still ticks `processData`.
   */
  method DoubleStartThenStop(first: Js.TimerId, second: Js.TimerId) returns (p: RealTimeDataProcessor)
    requires first != second
    ensures fresh(p) && p.Valid()
    ensures !p.GetStatistics().isProcessing
    ensures first in p.liveTimers
  {
    p := new RealTimeDataProcessor();
    p.StartProcessing(first);
    p.StartProcessing(second);
    p.StopProcessing();
  }

  /** Subscribers A, B, C with B throwing: all three are called, in order, with the newest sample. */
  method FanOutIsolatesFailures(a: Callback, b: Callback, c: Callback, older: Record, newer: Record)
    returns (deliveries: seq<Delivery>)
    requires a != b && b != c && a != c
    ensures |deliveries| == 3
    ensures deliveries[0] == Delivery(a, Stamped(newer, "t2"), false)
    ensures deliveries[1] == Delivery(b, Stamped(newer, "t2"), true)
    ensures deliveries[2] == Delivery(c, Stamped(newer, "t2"), false)
  {
    var p := new RealTimeDataProcessor();
    p.Subscribe(a);
    p.Subscribe(b);
    p.Subscribe(c);
    p.AddData(older, "t1");
    p.AddData(newer, "t2");
    deliveries := p.ProcessData({b});
  }
}
