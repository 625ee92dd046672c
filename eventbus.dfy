/**
 * `EventBus` (js/utils.js): a map from event names to the list of functions registered
 * for them. `on` appends, `off` removes every registration of one function or forgets
 * the event, `emit` calls the registered functions in order and isolates their failures,
 * and `once` registers a wrapper that unregisters itself after its first successful call.
 *
 * Functions are compared by identity, as `!==` does. A function the caller passes in is
 * `Callback(id)`; the wrapper closure `once` creates is `OnceWrapper(serial, target)`,
 * a new identity distinct from every function before it. Whether a user callback throws
 * is given to `emit` as the set of callbacks that fail; what they do besides returning
 * or throwing is not modelled.
 */
module EventBus {
  import opened Wrappers

  datatype Handler = Callback(id: nat) | OnceWrapper(serial: nat, target: nat)

  /** The user callback that runs when `h` is called. */
  function Target(h: Handler): nat
  {
    match h
    case Callback(id) => id
    case OnceWrapper(_, target) => target
  }

  /** One call made by `emit`: the user callback that ran, the registered function that ran it, the data, and whether it threw. */
  datatype Call<D> = Call(callback: nat, via: Handler, data: D, threw: bool)

  /** `handlers.filter(cb => !gone.has(cb))`: order kept, every registration of a function in `gone` dropped. */
  function Removing(hs: seq<Handler>, gone: set<Handler>): (r: seq<Handler>)
    ensures |r| <= |hs|
    ensures forall i :: 0 <= i < |r| ==> r[i] in hs && r[i] !in gone
  {
    if hs == [] then []
    else
      assert hs == [hs[0]] + hs[1..];
      (if hs[0] in gone then [] else [hs[0]]) + Removing(hs[1..], gone)
  }

  /** Every function not removed keeps all its registrations. */
  lemma {:induction false} RemovingCounts(hs: seq<Handler>, gone: set<Handler>)
    ensures forall x :: x !in gone ==> multiset(Removing(hs, gone))[x] == multiset(hs)[x]
  {
    if hs != [] {
      RemovingCounts(hs[1..], gone);
      assert hs == [hs[0]] + hs[1..];
    }
  }

  lemma {:induction false} RemovingTwice(hs: seq<Handler>, a: set<Handler>, b: set<Handler>)
    ensures Removing(Removing(hs, a), b) == Removing(hs, a + b)
  {
    if hs != [] {
      RemovingTwice(hs[1..], a, b);
      var first := if hs[0] in a then [] else [hs[0]];
      var rest := Removing(hs[1..], a);
      assert Removing(hs, a) == first + rest;
      if hs[0] in a {
        assert Removing(hs, a) == rest;
      } else {
        assert (first + rest)[0] == hs[0] && (first + rest)[1..] == rest;
      }
    }
  }

  lemma {:induction false} RemovingNothing(hs: seq<Handler>)
    ensures Removing(hs, {}) == hs
  {
    if hs != [] {
      RemovingNothing(hs[1..]);
    }
  }

  /** A wrapper made by `once` whose callback returns removes itself after running. */
  predicate Fires(h: Handler, failing: set<nat>)
  {
    h.OnceWrapper? && h.target !in failing
  }

  /** The wrappers among `hs` that remove themselves during an `emit`. */
  function FiredIn(hs: seq<Handler>, failing: set<nat>): (s: set<Handler>)
    ensures forall x :: x in s <==> x in hs && Fires(x, failing)
  {
    if hs == [] then {}
    else
      var init := hs[..|hs| - 1];
      assert hs == init + [hs[|hs| - 1]];
      FiredIn(init, failing) + (if Fires(hs[|hs| - 1], failing) then {hs[|hs| - 1]} else {})
  }

  lemma FiredStep(hs: seq<Handler>, i: nat, failing: set<nat>)
    requires i < |hs|
    ensures FiredIn(hs[..i + 1], failing) == FiredIn(hs[..i], failing) + (if Fires(hs[i], failing) then {hs[i]} else {})
  {
    assert hs[..i + 1][..i] == hs[..i];
  }

  /** The calls running `hs` in order makes, each with the same data. */
  function CallsOf<D>(hs: seq<Handler>, data: D, failing: set<nat>): (calls: seq<Call<D>>)
    ensures |calls| == |hs|
    ensures forall i :: 0 <= i < |hs| ==> calls[i] == Call(Target(hs[i]), hs[i], data, Target(hs[i]) in failing)
  {
    if hs == [] then []
    else CallsOf(hs[..|hs| - 1], data, failing) + [Call(Target(hs[|hs| - 1]), hs[|hs| - 1], data, Target(hs[|hs| - 1]) in failing)]
  }

  lemma CallsStep<D>(hs: seq<Handler>, i: nat, data: D, failing: set<nat>)
    requires i < |hs|
    ensures CallsOf(hs[..i + 1], data, failing) == CallsOf(hs[..i], data, failing) + [Call(Target(hs[i]), hs[i], data, Target(hs[i]) in failing)]
  {
    assert hs[..i + 1][..i] == hs[..i];
  }

  /** Two updates of the same key keep only the second. */
  lemma UpdateTwice<K, V>(m: map<K, V>, k: K, a: V, b: V)
    ensures m[k := a][k := b] == m[k := b]
  {
  }

  class Bus {
    var events: map<string, seq<Handler>>
    /** The serial numbers of every wrapper `once` has created, so that each new one is a new closure. */
    ghost var serials: set<nat>

    constructor()
      ensures events == map[] && serials == {}
    {
      events := map[];
      serials := {};
    }

    /** The functions registered for `event`, or none when it has no list. */
    function Handlers(event: string): (hs: seq<Handler>)
      reads this
      ensures event !in events ==> hs == []
      ensures event in events ==> hs == events[event]
    {
      if event in events then events[event] else []
    }

    /** `on(event, callback)`: creates the event's list if needed and appends. */
    method On(event: string, callback: Handler)
      modifies this
      ensures events == old(events)[event := old(Handlers(event)) + [callback]]
      ensures serials == old(serials)
    {
      if event !in events {
        events := events[event := []];
      }
      events := events[event := events[event] + [callback]];
    }

    /**
     * `off(event, callback)`: with a function, removes every registration of it (the list
     * stays, possibly empty); without one, forgets the event; an unknown event is left alone.
     */
    method Off(event: string, callback: Option<Handler>)
      modifies this
      ensures event !in old(events) ==> events == old(events)
      ensures event in old(events) && callback.Some? ==>
        events == old(events)[event := Removing(old(events)[event], {callback.value})]
      ensures event in old(events) && callback.None? ==> events == old(events) - {event}
      ensures serials == old(serials)
    {
      if event !in events {
        return;
      }
      match callback {
        case Some(cb) =>
          events := events[event := Removing(events[event], {cb})];
        case None =>
          events := events - {event};
      }
    }

    /**
     * `emit(event, data)`: runs every function registered when the call starts, in
     * registration order, each inside its own try/catch. A wrapper from `once` whose
     * callback returns calls `off` on itself; one whose callback throws stays registered.
     */
    method Emit<D>(event: string, data: D, failing: set<nat>) returns (calls: seq<Call<D>>)
      modifies this
      ensures event !in old(events) ==> calls == [] && events == old(events)
      ensures event in old(events) ==>
        var hs := old(events)[event];
        calls == CallsOf(hs, data, failing) &&
        events == old(events)[event := Removing(hs, FiredIn(hs, failing))]
      ensures serials == old(serials)
    {
      calls := [];
      if event !in events {
        return;
      }
      var hs := events[event];
      RemovingNothing(hs);
      ghost var gone: set<Handler> := {};
      var i := 0;
      while i < |hs|
        invariant 0 <= i <= |hs|
        invariant calls == CallsOf(hs[..i], data, failing)
        invariant gone == FiredIn(hs[..i], failing)
        invariant events == old(events)[event := Removing(hs, gone)]
        invariant serials == old(serials)
      {
        var call := Run(event, hs, i, data, failing, gone);
        ghost var gone' := gone + (if Fires(hs[i], failing) then {hs[i]} else {});
        UpdateTwice(old(events), event, Removing(hs, gone), Removing(hs, gone'));
        assert calls + [call] == CallsOf(hs[..i + 1], data, failing) by {
          CallsStep(hs, i, data, failing);
        }
        assert gone' == FiredIn(hs[..i + 1], failing) by {
          FiredStep(hs, i, failing);
        }
        calls := calls + [call];
        gone := gone';
        i := i + 1;
      }
      assert hs[..i] == hs;
      assert calls == CallsOf(hs, data, failing) && gone == FiredIn(hs, failing);
    }

    /**
     * One step of `emit`: the call `hs[i](data)` inside its try/catch, and for a `once`
     * wrapper whose callback returned, the `off` it performs on itself.
     */
    method Run<D>(event: string, hs: seq<Handler>, i: nat, data: D, failing: set<nat>, ghost gone: set<Handler>)
      returns (call: Call<D>)
      requires i < |hs|
      requires event in events && events[event] == Removing(hs, gone)
      modifies this
      ensures call == Call(Target(hs[i]), hs[i], data, Target(hs[i]) in failing)
      ensures events == old(events)[event := Removing(hs, gone + (if Fires(hs[i], failing) then {hs[i]} else {}))]
      ensures serials == old(serials)
    {
      var h := hs[i];
      var threw := Target(h) in failing;
      call := Call(Target(h), h, data, threw);
      if h.OnceWrapper? && !threw {
        // the wrapper's own `this.off(event, onceCallback)`
        RemovingTwice(hs, gone, {h});
        Off(event, Some(h));
      } else {
        assert gone + {} == gone;
      }
    }

    /** `once(event, callback)`: registers a new wrapper closure around `callback`. */
    method Once(event: string, callback: nat, serial: nat)
      requires serial !in serials
      modifies this
      ensures events == old(events)[event := old(Handlers(event)) + [OnceWrapper(serial, callback)]]
      ensures serials == old(serials) + {serial}
    {
      serials := serials + {serial};
      On(event, OnceWrapper(serial, callback));
    }
  }

  /**
   * After an `emit`, a function is still registered exactly as often as before unless it
   * is a `once` wrapper whose callback returned, which is gone.
   */
  lemma EmitLeaves(hs: seq<Handler>, failing: set<nat>, x: Handler)
    ensures multiset(Removing(hs, FiredIn(hs, failing)))[x] == if Fires(x, failing) then 0 else multiset(hs)[x]
  {
    var r := Removing(hs, FiredIn(hs, failing));
    RemovingCounts(hs, FiredIn(hs, failing));
    if Fires(x, failing) && x in hs {
      assert x !in r;
    } else if Fires(x, failing) {
      assert x !in r;
      assert x !in multiset(hs);
    }
  }

  /** `off(event, cb)` removes every registration of `cb` and keeps the others, unlike the processor's `unsubscribe`. */
  lemma OffRemovesAll(hs: seq<Handler>, cb: Handler)
    ensures cb !in Removing(hs, {cb})
    ensures forall x :: x != cb ==> multiset(Removing(hs, {cb}))[x] == multiset(hs)[x]
  {
    RemovingCounts(hs, {cb});
  }

  /** A bus reached by `on(e, f)` twice and `off(e, f)` has an empty list for `e`, and `emit(e)` then calls nothing. */
  method OnTwiceOffOnce() returns (calls: seq<Call<string>>)
    ensures calls == []
  {
    var bus := new Bus();
    bus.On("update", Callback(1));
    bus.On("update", Callback(1));
    bus.Off("update", Some(Callback(1)));
    assert bus.events["update"] == Removing([Callback(1), Callback(1)], {Callback(1)});
    assert bus.events["update"] == [];
    calls := bus.Emit("update", "payload", {});
  }

  /** A `once` registration runs on the first `emit` only, even after a failing callback before it. */
  method OnceRunsOnce() returns (first: seq<Call<string>>, second: seq<Call<string>>)
    ensures |first| == 2 && first[0].callback == 1 && first[0].threw && first[1].callback == 2 && !first[1].threw
    ensures |second| == 1 && second[0].callback == 1
  {
    var bus := new Bus();
    bus.On("tick", Callback(1));
    bus.Once("tick", 2, 0);
    first := bus.Emit("tick", "a", {1});
    assert FiredIn([Callback(1), OnceWrapper(0, 2)], {1}) == {OnceWrapper(0, 2)};
    assert bus.events["tick"] == [Callback(1)];
    second := bus.Emit("tick", "b", {1});
  }
}
